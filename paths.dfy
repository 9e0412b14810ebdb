/**
 * Path arithmetic of the generator: mapping a content path to its output
 * path, deriving an article's canonical URL, and the two `path/filepath`
 * functions (`Ext`, `Base`) its decisions rest on, for a system whose
 * separator is '/'.
 */
module Paths {
  import opened Strings

  /**
   * targetPathFromContentPath, with the CONTENT_PATH and TARGET_PATH
   * lookups passed in as `contentDir` and `targetDir`: a path under the
   * content root keeps its remainder verbatim under the target root; any
   * other path passes through unchanged.
   */
  function TargetPathFromContentPath(contentDir: string, targetDir: string, path: string): (r: string)
    ensures HasPrefix(path, contentDir) ==> HasPrefix(r, targetDir) && r[|targetDir|..] == path[|contentDir|..]
    ensures !HasPrefix(path, contentDir) ==> r == path
  {
    if HasPrefix(path, contentDir) then targetDir + path[|contentDir|..] else path
  }

  /** Mapping a content path and then mapping back with the roots swapped gives the path again. */
  lemma MappingRoundTrip(contentDir: string, targetDir: string, path: string)
    requires HasPrefix(path, contentDir)
    ensures TargetPathFromContentPath(targetDir, contentDir, TargetPathFromContentPath(contentDir, targetDir, path)) == path
  {
    var t := TargetPathFromContentPath(contentDir, targetDir, path);
    assert t[..|targetDir|] == targetDir;
    assert contentDir + t[|targetDir|..] == path by {
      assert path == path[..|contentDir|] + path[|contentDir|..];
    }
  }

  /** Distinct content paths under the content root never collide in the target tree. */
  lemma MappingInjective(contentDir: string, targetDir: string, p: string, q: string)
    requires HasPrefix(p, contentDir) && HasPrefix(q, contentDir)
    requires TargetPathFromContentPath(contentDir, targetDir, p) == TargetPathFromContentPath(contentDir, targetDir, q)
    ensures p == q
  {
    MappingRoundTrip(contentDir, targetDir, p);
    MappingRoundTrip(contentDir, targetDir, q);
  }

  const ArticlesMarker := "/articles/"

  /**
   * convertArticlePathToUrl: the suffix of `path` that starts at the first
   * "/articles/", or the whole path when the marker does not occur.
   */
  function ConvertArticlePathToUrl(path: string): (r: string)
    ensures HasSuffix(path, r)
    ensures Contains(path, ArticlesMarker) ==>
              HasPrefix(r, ArticlesMarker) &&
              forall j :: 0 <= j < |path| - |r| ==> !OccursAt(path, ArticlesMarker, j)
    ensures !Contains(path, ArticlesMarker) ==> r == path
  {
    var i := Index(path, ArticlesMarker);
    if i == -1 then path
    else
      assert path[i..][..|ArticlesMarker|] == path[i..i + |ArticlesMarker|];
      path[i..]
  }

  /** The URL of a path that contains the marker always starts with the marker. */
  lemma UrlStartsWithMarker(path: string)
    ensures HasPrefix(ConvertArticlePathToUrl(path), ArticlesMarker) <==> Contains(path, ArticlesMarker)
  {
    var r := ConvertArticlePathToUrl(path);
    if HasPrefix(r, ArticlesMarker) {
      var j := |path| - |r|;
      assert path[j..j + |ArticlesMarker|] == r[..|ArticlesMarker|];
      assert OccursAt(path, ArticlesMarker, j);
    }
  }

  /**
   * filepath.Ext scanning from index `i - 1` down: the suffix from the
   * last '.' that is not followed by a '/', or "" when a '/' or the start
   * is reached first. Positions at and after `i` hold neither.
   */
  function ExtBefore(path: string, i: nat): (r: string)
    requires i <= |path|
    requires forall k :: i <= k < |path| ==> path[k] != '.' && path[k] != '/'
    ensures r == "" || (|path| - |r| < i && HasSuffix(path, r) && r[0] == '.')
    ensures r != "" ==> forall k :: |path| - |r| < k < |path| ==> path[k] != '.' && path[k] != '/'
    ensures r == "" ==> forall k :: 0 <= k < i && path[k] == '.' ==> exists j :: k < j < i && path[j] == '/'
    decreases i
  {
    if i == 0 then ""
    else if path[i - 1] == '/' then ""
    else if path[i - 1] == '.' then path[i - 1..]
    else ExtBefore(path, i - 1)
  }

  /**
   * filepath.Ext: the suffix of the final path element that starts at its
   * last '.', or "" when that element has no '.'.
   */
  function Ext(path: string): (r: string)
    ensures HasSuffix(path, r)
    ensures r != "" ==> r[0] == '.' && forall k :: 1 <= k < |r| ==> r[k] != '.' && r[k] != '/'
    ensures r != "" ==> forall k :: |path| - |r| < k < |path| ==> path[k] != '.' && path[k] != '/'
    ensures r == "" ==> forall k :: 0 <= k < |path| && path[k] == '.' ==> exists j :: k < j < |path| && path[j] == '/'
  {
    var r := ExtBefore(path, |path|);
    assert r != "" ==> forall k :: 1 <= k < |r| ==> r[k] == path[|path| - |r| + k];
    r
  }

  /** The dispatch test `Ext(path) == ".html"` holds exactly for paths that end in ".html" (case-sensitively). */
  lemma {:induction false} ExtIsHtmlIff(path: string)
    ensures Ext(path) == ".html" <==> HasSuffix(path, ".html")
  {
    var r := Ext(path);
    var n := |path|;
    if HasSuffix(path, ".html") {
      assert path[n - 5..] == ".html";
      assert path[n - 5] == '.' && path[n - 4] == 'h' && path[n - 3] == 't' && path[n - 2] == 'm' && path[n - 1] == 'l';
      assert forall j :: n - 5 < j < n ==> path[j] != '/';
      assert r != "";
      var s := n - |r|;
      assert path[s] == r[0] == '.';
      assert s == n - 5;
    }
  }

  /** Drops every trailing '/'. */
  function TrimTrailingSlashes(p: string): (r: string)
    ensures HasPrefix(p, r) && (r == "" || r[|r| - 1] != '/')
    ensures forall k :: |r| <= k < |p| ==> p[k] == '/'
  {
    if p != "" && p[|p| - 1] == '/' then TrimTrailingSlashes(p[..|p| - 1]) else p
  }

  /** The part of `p` after its last '/'. */
  function LastElement(p: string): (r: string)
    ensures HasSuffix(p, r) && '/' !in r
    ensures |r| < |p| ==> p[|p| - |r| - 1] == '/'
  {
    if p == "" || p[|p| - 1] == '/' then ""
    else
      var e := LastElement(p[..|p| - 1]);
      assert p[..|p| - 1][|p| - 1 - |e|..] == p[|p| - 1 - |e|..|p| - 1];
      e + [p[|p| - 1]]
  }

  /** A '/'-free word is the last element of itself and of anything ending in '/' and the word. */
  lemma {:induction false} LastElementIs(p: string, e: string)
    requires '/' !in e
    requires p == e || HasSuffix(p, "/" + e)
    ensures LastElement(p) == e
  {
    var r := LastElement(p);
    assert p != e ==> p[|p| - |e| - 1] == '/';
    assert forall k :: |p| - |e| <= k < |p| ==> p[k] == e[k - (|p| - |e|)];
    assert forall k :: |p| - |r| <= k < |p| ==> p[k] == r[k - (|p| - |r|)];
    assert |r| == |e|;
  }

  /**
   * filepath.Base: the last element of the path after trailing slashes are
   * removed; "." for the empty path and "/" for a path of slashes only.
   */
  function Base(path: string): (r: string)
    ensures r != ""
    ensures r == "/" || '/' !in r
    ensures r == "/" <==> path != "" && TrimTrailingSlashes(path) == ""
  {
    if path == "" then "."
    else
      var e := LastElement(TrimTrailingSlashes(path));
      if e == "" then "/" else e
  }

  /** A path whose trimmed form is `name` or ends in "/" + `name` has base name `name`. */
  lemma BaseOfNamedPath(path: string, name: string)
    requires name != "" && '/' !in name
    ensures (var t := TrimTrailingSlashes(path); t == name || HasSuffix(t, "/" + name)) ==> Base(path) == name
  {
    var t := TrimTrailingSlashes(path);
    if t == name || HasSuffix(t, "/" + name) {
      LastElementIs(t, name);
      assert |t| > 0;
    }
  }

  /** A path whose base name is `name` is, once trimmed, `name` or ends in "/" + `name`. */
  lemma NamedPathOfBase(path: string, name: string)
    requires name != "" && name != "." && '/' !in name
    ensures Base(path) == name ==> (var t := TrimTrailingSlashes(path); t == name || HasSuffix(t, "/" + name))
  {
    var t := TrimTrailingSlashes(path);
    if Base(path) == name {
      var e := LastElement(t);
      assert path != "";
      assert e == name;
      if |e| < |t| {
        assert t[|t| - |e| - 1..] == "/" + e;
      }
    }
  }

  /**
   * The base name of a path is `name` exactly when the path, with trailing
   * slashes removed, is `name` or ends in "/" + `name`.
   */
  lemma BaseIsIff(path: string, name: string)
    requires name != "" && name != "." && '/' !in name
    ensures Base(path) == name <==>
              (var t := TrimTrailingSlashes(path); t == name || HasSuffix(t, "/" + name))
  {
    BaseOfNamedPath(path, name);
    NamedPathOfBase(path, name);
  }
}

/**
 * Path handling with the Unix directory separator '/': PHP's dirname and
 * file_exists over a set of existing paths.
 */
module PhpPaths {
  import opened PhpStrings

  predicate IsAbsolute(p: string) {
    |p| > 0 && p[0] == '/'
  }

  /** file_exists($p) against the set of paths that exist; the empty path never exists. */
  predicate FileExists(files: set<string>, p: string)
    ensures FileExists(files, p) ==> p in files
    ensures p == "" ==> !FileExists(files, p)
  {
    p != "" && p in files
  }

  /** `a` names a directory strictly above `p`: a shorter prefix of `p` that ends where a
      separator of `p` stands, or the root. */
  predicate IsProperAncestor(a: string, p: string) {
    |a| < |p| && a == p[..|a|] && (a == "/" || p[|a|] == '/')
  }

  /** Drops the last path component: the trailing run of non-separator characters. */
  function StripFilename(s: string): (r: string)
    ensures |r| <= |s| && r == s[..|r|]
    ensures forall i | |r| <= i < |s| :: s[i] != '/'
    ensures r == [] || r[|r| - 1] == '/'
  {
    if s == [] || s[|s| - 1] == '/' then s else StripFilename(s[..|s| - 1])
  }

  /** dirname($p): strip trailing separators, then the last component, then the
      separators before it; a path of separators only gives "/", one without
      any separator gives ".". */
  function Dirname(p: string): (r: string)
    ensures IsAbsolute(p) ==> IsAbsolute(r)
    ensures IsAbsolute(p) && p != "/" ==> |r| < |p|
  {
    if p == "" then ""
    else
      var trimmed := RTrim(p, "/");
      if trimmed == "" then "/"
      else
        var parent := StripFilename(trimmed);
        if parent == "" then "."
        else
          var r := RTrim(parent, "/");
          if r == "" then "/" else r
  }

  lemma DirnameShape(p: string)
    ensures p == "" <==> Dirname(p) == ""
    ensures IsAbsolute(p) ==> IsAbsolute(Dirname(p))
    ensures IsAbsolute(p) && p != "/" ==> IsProperAncestor(Dirname(p), p)
    ensures IsAbsolute(p) && Dirname(p) != "/" ==> Dirname(p)[|Dirname(p)| - 1] != '/'
  {
  }

  /** Stripping the filename of `a/name` leaves `a/`. */
  lemma StripFilenameOfComponent(a: string, name: string)
    requires '/' !in name
    ensures StripFilename(a + "/" + name) == a + "/"
  {
    var s, r := a + "/" + name, StripFilename(a + "/" + name);
    assert s[|a|] == '/';
  }

  /** dirname drops exactly one component: the directory above `parent/name` is
      `parent`, or the root when `parent` is empty. */
  lemma DirnameOfChild(parent: string, name: string)
    requires name != [] && '/' !in name
    requires parent == [] || parent[|parent| - 1] != '/'
    ensures Dirname(parent + "/" + name) == if parent == [] then "/" else parent
  {
    var p := parent + "/" + name;
    assert p[|p| - 1] == name[|name| - 1];
    RTrimFixed(p, "/");
    StripFilenameOfComponent(parent, name);
    RTrimIgnoresMaskSuffix(parent, "/", "/");
    RTrimFixed(parent, "/");
  }
}

/**
 * What the autoloader promises, stated over the functions of module Psr4:
 * how addNamespace shapes and updates the table, which file loadClass picks,
 * which directories the composer.json search visits, and what
 * loadMappingsFromComposer leaves in the table on success and on failure.
 */
module Psr4Properties {
  import opened Wrappers
  import opened PhpStrings
  import opened PhpPaths
  import opened PhpValues
  import opened Psr4

  // ---------------------------------------------------------------------------
  // addNamespace
  // ---------------------------------------------------------------------------

  /** Any run of trailing separators on either argument is irrelevant: ("Foo\\", "src")
      and ("Foo", "src/") give the same table. */
  lemma TrailingSeparatorsIgnored(t: Table, prefix: string, slashes: string, baseDir: string, backslashes: string)
    requires forall i | 0 <= i < |backslashes| :: backslashes[i] == '\\'
    requires forall i | 0 <= i < |slashes| :: slashes[i] == '/'
    ensures WithNamespace(t, prefix + backslashes, baseDir + slashes) == WithNamespace(t, prefix, baseDir)
  {
    RTrimIgnoresMaskSuffix(prefix, backslashes, "\\");
    RTrimIgnoresMaskSuffix(baseDir, slashes, "/");
  }

  lemma TrailingSeparatorExample(t: Table)
    ensures WithNamespace(t, "Foo\\", "src") == WithNamespace(t, "Foo", "src/")
  {
    TrailingSeparatorsIgnored(t, "Foo", "", "src", "\\");
    TrailingSeparatorsIgnored(t, "Foo", "/", "src", "");
    assert "Foo" + "\\" == "Foo\\" && "src" + "" == "src";
    assert "Foo" + "" == "Foo" && "src" + "/" == "src/";
  }

  /** Repeating a call changes nothing, and one call adds at most one key. */
  lemma AddNamespaceIdempotent(t: Table, prefix: string, baseDir: string)
    ensures WithNamespace(WithNamespace(t, prefix, baseDir), prefix, baseDir) == WithNamespace(t, prefix, baseDir)
    ensures |WithNamespace(t, prefix, baseDir)| <= |t| + 1
    ensures NormalizePrefix(prefix) in t ==> |WithNamespace(t, prefix, baseDir)| == |t|
  {
    var k := NormalizePrefix(prefix);
    var r := WithNamespace(t, prefix, baseDir);
    assert r.Keys == t.Keys + {k};
    if k in t {
      assert t.Keys + {k} == t.Keys;
    } else {
      assert |t.Keys + {k}| == |t.Keys| + 1;
    }
  }

  /** A later call for the same normalised prefix overwrites the earlier one. */
  lemma LaterCallOverwrites(t: Table, p1: string, d1: string, p2: string, d2: string)
    requires NormalizePrefix(p1) == NormalizePrefix(p2)
    ensures WithNamespace(WithNamespace(t, p1, d1), p2, d2) == WithNamespace(t, p2, d2)
  {
  }

  /** Registering a stored entry again leaves a normalised table as it is: stored keys
      and base directories are their own normal forms. */
  lemma StoredEntryIsFixedPoint(t: Table, k: string)
    requires Normalised(t) && k in t
    ensures WithNamespace(t, k, t[k]) == t
  {
    var d := t[k];
    assert NormalizePrefix(k) == k by {
      RTrimFixed(k, "\\");
    }
    assert NormalizeBaseDir(d) == d by {
      RTrimFixed(d[..|d| - 1], "/");
      RTrimIgnoresMaskSuffix(d[..|d| - 1], "/", "/");
      assert d[..|d| - 1] + "/" == d;
    }
    assert t[k := d] == t;
  }

  /** Index of the last pair whose prefix normalises to `k`, or -1. */
  function LastFor(pairs: seq<(string, string)>, k: string): (j: int)
    ensures -1 <= j < |pairs|
    ensures j >= 0 ==> NormalizePrefix(pairs[j].0) == k
    ensures forall i | j < i < |pairs| :: NormalizePrefix(pairs[i].0) != k
  {
    if pairs == [] then -1
    else if NormalizePrefix(pairs[|pairs| - 1].0) == k then |pairs| - 1
    else LastFor(pairs[..|pairs| - 1], k)
  }

  /** After a sequence of addNamespace calls, each key holds the base directory of the
      last call that named it; keys no call named keep their old value. */
  lemma {:induction false} AddAllLastWins(t: Table, pairs: seq<(string, string)>, k: string)
    ensures var r := AddAll(t, pairs); var j := LastFor(pairs, k);
      if j >= 0 then k in r && r[k] == NormalizeBaseDir(pairs[j].1)
      else (k in r <==> k in t) && (k in t ==> r[k] == t[k])
  {
    if pairs != [] {
      AddAllLastWins(t, pairs[..|pairs| - 1], k);
    }
  }

  // ---------------------------------------------------------------------------
  // loadClass and fcqnToPath
  // ---------------------------------------------------------------------------

  /** For "prefix\rest" with a one-segment prefix, fcqnToPath removes exactly the prefix,
      then the leading backslashes of `rest`. */
  lemma FcqnToPathOfPrefixed(prefix: string, rest: string)
    requires prefix != [] && '\\' !in prefix && NoRangeSyntax(prefix)
    ensures FcqnToPath(prefix + "\\" + rest, prefix)
         == ReplaceChar(LTrim(rest, "\\"), '\\', '/') + ".php"
  {
    var tail := ['\\'] + rest;
    assert prefix + "\\" + rest == prefix + tail;
    LTrimDropsMaskedPrefix(prefix, tail, prefix);
    LTrimSkipsMaskChar('\\', rest, "\\");
  }

  /** A name with a leading backslash keeps its first segment: ltrim by the prefix's
      characters stops at once, so only the backslashes go. */
  lemma FcqnToPathLeadingBackslash(fqcn: string, prefix: string)
    requires fqcn != [] && fqcn[0] == '\\' && '\\' !in prefix && NoRangeSyntax(prefix)
    ensures FcqnToPath(fqcn, prefix) == ReplaceChar(LTrim(fqcn, "\\"), '\\', '/') + ".php"
  {
  }

  /** Only the first segment is looked up, and it never contains a backslash: a key with
      a backslash in it can be removed without changing any lookup. */
  lemma KeyWithBackslashNeverSelected(t: Table, className: string, k: string)
    requires Resolvable(className) && '\\' in k
    ensures CandidateFile(t, className) == CandidateFile(t - {k}, className)
  {
    assert StrTok(className, '\\').value != k;
  }

  /** A name "p\tail" whose first segment `p` is a key resolves under that key's base
      directory. */
  lemma ResolveUnderKey(t: Table, p: string, tail: string)
    requires p != [] && '\\' !in p && NoRangeSyntax(p) && p in t
    ensures Resolvable(p + "\\" + tail)
    ensures CandidateFile(t, p + "\\" + tail)
         == Some(t[p] + (ReplaceChar(LTrim(tail, "\\"), '\\', '/') + ".php"))
  {
    var className := p + "\\" + tail;
    assert className == p + ['\\'] + tail;
    StrTokOfSegment(p, '\\', tail);
    FcqnToPathOfPrefixed(p, tail);
    assert CandidateFile(t, className) == Some(t[p] + FcqnToPath(className, p));
  }

  /** With a leading backslash the first segment is still the key looked up, but it is
      not removed: "\p\tail" resolves to the base directory of `p` followed by the
      whole name "p\tail" as a path. */
  lemma ResolveWithLeadingBackslash(t: Table, p: string, tail: string)
    requires p != [] && '\\' !in p && NoRangeSyntax(p) && p in t
    ensures Resolvable("\\" + p + "\\" + tail)
    ensures CandidateFile(t, "\\" + p + "\\" + tail)
         == Some(t[p] + (ReplaceChar(p + "\\" + tail, '\\', '/') + ".php"))
  {
    var name := p + ['\\'] + tail;
    var className := ['\\'] + name;
    assert "\\" + p + "\\" + tail == className;
    assert p + "\\" + tail == name;
    assert name[0] == p[0];
    LTrimSkipsMaskChar('\\', name, "\\");
    assert LTrim(className, "\\") == name;
    SpanUntilStopsAtDelimiter(p, '\\', tail);
    assert StrTok(className, '\\') == Some(p);
    FcqnToPathLeadingBackslash(className, p);
  }

  /** After addNamespace(prefix, d) with a one-segment prefix, "prefix\tail" resolves to
      the normalised base directory followed by the tail as a path. */
  lemma AddThenResolve(t: Table, prefix: string, baseDir: string, tail: string)
    requires NormalizePrefix(prefix) != [] && '\\' !in NormalizePrefix(prefix)
    requires NoRangeSyntax(NormalizePrefix(prefix))
    ensures Resolvable(NormalizePrefix(prefix) + "\\" + tail)
    ensures CandidateFile(WithNamespace(t, prefix, baseDir), NormalizePrefix(prefix) + "\\" + tail)
         == Some(NormalizeBaseDir(baseDir) + (ReplaceChar(LTrim(tail, "\\"), '\\', '/') + ".php"))
  {
    ResolveUnderKey(WithNamespace(t, prefix, baseDir), NormalizePrefix(prefix), tail);
  }

  // ---------------------------------------------------------------------------
  // The composer.json search
  // ---------------------------------------------------------------------------

  lemma ProperAncestorTransitive(a: string, b: string, c: string)
    requires IsProperAncestor(a, b) && IsProperAncestor(b, c)
    ensures IsProperAncestor(a, c)
  {
    assert c[..|b|][..|a|] == c[..|a|];
  }

  /** The search examines `dir` first, then the dirname of each directory in turn; it
      stops when dirname reaches the root, which it never examines. */
  lemma {:induction false} AncestorsSteps(dir: string)
    requires IsAbsolute(dir)
    ensures var ds := Ancestors(dir);
      && (ds == [] <==> dir == "/")
      && (ds != [] ==> ds[0] == dir && Dirname(ds[|ds| - 1]) == "/")
      && (forall i | 0 <= i < |ds| :: IsAbsolute(ds[i]) && ds[i] != "/")
      && (forall i | 0 <= i < |ds| - 1 :: ds[i + 1] == Dirname(ds[i]))
    decreases |dir|
  {
    if dir != "/" {
      var parent := Dirname(dir);
      AncestorsSteps(parent);
      var ds, rest := Ancestors(dir), Ancestors(parent);
      assert ds == [dir] + rest;
      if rest == [] {
        assert Dirname(ds[|ds| - 1]) == "/";
      } else {
        assert ds[|ds| - 1] == rest[|rest| - 1];
      }
      forall i | 0 <= i < |ds|
        ensures IsAbsolute(ds[i]) && ds[i] != "/"
      {
        if i > 0 {
          assert ds[i] == rest[i - 1];
        }
      }
      forall i | 0 <= i < |ds| - 1
        ensures ds[i + 1] == Dirname(ds[i])
      {
        assert ds[i + 1] == rest[i];
        if i > 0 {
          assert ds[i] == rest[i - 1];
        }
      }
    }
  }

  /** Each directory the search examines lies strictly above all those examined before. */
  lemma {:induction false} AncestorsAscend(dir: string)
    requires IsAbsolute(dir)
    ensures var ds := Ancestors(dir);
      forall i, j | 0 <= i < j < |ds| :: IsProperAncestor(ds[j], ds[i])
    decreases |dir|
  {
    if dir != "/" {
      var parent := Dirname(dir);
      DirnameShape(dir);
      AncestorsAscend(parent);
      AncestorsSteps(parent);
      var ds, rest := Ancestors(dir), Ancestors(parent);
      assert ds == [dir] + rest;
      forall i, j | 0 <= i < j < |ds|
        ensures IsProperAncestor(ds[j], ds[i])
      {
        if i == 0 {
          if j > 1 {
            assert IsProperAncestor(rest[j - 1], rest[0]);
            ProperAncestorTransitive(ds[j], parent, dir);
          }
        } else {
          assert IsProperAncestor(rest[j - 1], rest[i - 1]);
        }
      }
    }
  }

  /** A composer.json in the start directory is the one found. */
  lemma StartManifestWins(start: string, files: set<string>)
    requires IsAbsolute(start) && start != "/"
    requires FileExists(files, ManifestPath(start))
    ensures NearestManifest(start, files) == ManifestPath(start)
  {
    assert Ancestors(start)[0] == start;
  }

  /** Without a composer.json in `parent/name`, the one in `parent` is found. */
  lemma ParentManifestFound(parent: string, name: string, files: set<string>)
    requires IsAbsolute(parent) && parent[|parent| - 1] != '/'
    requires name != [] && '/' !in name
    requires !FileExists(files, ManifestPath(parent + "/" + name))
    requires FileExists(files, ManifestPath(parent))
    ensures NearestManifest(parent + "/" + name, files) == ManifestPath(parent)
  {
    var dir := parent + "/" + name;
    DirnameOfChild(parent, name);
    var ds := Ancestors(dir);
    assert ds == [dir] + Ancestors(parent);
    assert ds[1] == parent;
    assert ds[1..][0] == parent;
    assert FirstWithManifest(ds[1..], files) == 0;
  }

  // ---------------------------------------------------------------------------
  // loadMappingsFromComposer
  // ---------------------------------------------------------------------------

  /** Success: every psr-4 entry is registered, in order, and true is returned. */
  lemma ManifestRegistersAll(
    t: Table, sourceDir: string, files: set<string>,
    read: string -> Option<string>, decode: string -> Result<Value, string>,
    content: string, configuration: Value, entries: seq<(string, Value)>)
    requires IsAbsolute(sourceDir)
    requires NearestManifest(sourceDir, files) != ""
    requires read(NearestManifest(sourceDir, files)) == Some(content)
    requires decode(content) == Success(configuration)
    requires Psr4Section(configuration) == Some(entries)
    requires forall j | 0 <= j < |entries| :: StringArgument(entries[j].1).Some?
    ensures LoadMappings(t, sourceDir, files, read, decode)
         == Loaded(AddAll(t, StringEntries(entries)), Success(true))
  {
    FirstManifestSpec(Ancestors(sourceDir), files);
    assert entries[..|entries|] == entries;
  }

  /** A value addNamespace refuses stops the registration: the entries before it stay
      in the table and the TypeError is rethrown wrapped. */
  lemma ManifestTypeErrorKeepsEarlierEntries(
    t: Table, sourceDir: string, files: set<string>,
    read: string -> Option<string>, decode: string -> Result<Value, string>,
    content: string, configuration: Value, entries: seq<(string, Value)>)
    requires IsAbsolute(sourceDir)
    requires NearestManifest(sourceDir, files) != ""
    requires read(NearestManifest(sourceDir, files)) == Some(content)
    requires decode(content) == Success(configuration)
    requires Psr4Section(configuration) == Some(entries)
    requires FirstTypeError(entries) < |entries|
    ensures LoadMappings(t, sourceDir, files, read, decode)
      == Loaded(RegisteredBefore(t, entries),
                Wrapped(TypeErrorMessage(sourceDir, entries[FirstTypeError(entries)].1)))
  {
    FirstManifestSpec(Ancestors(sourceDir), files);
  }

  /** Every failure before the foreach leaves the table untouched; which one it is
      shows only in the message. */
  lemma ManifestFailuresBeforeRegistration(
    t: Table, sourceDir: string, files: set<string>,
    read: string -> Option<string>, decode: string -> Result<Value, string>)
    requires IsAbsolute(sourceDir)
    ensures var path := NearestManifest(sourceDir, files);
      var r := LoadMappings(t, sourceDir, files, read, decode);
      && (path == "" ==> r == Loaded(t, Wrapped(NotFoundPrefix)))
      && (path != "" && read(path).None? ==>
            r == Loaded(t, Wrapped(ReadFailedPrefix + path)))
      && (path != "" && read(path).Some? && decode(read(path).value).Failure? ==>
            r == Loaded(t, Wrapped(InvalidJsonPrefix + decode(read(path).value).error)))
      && (path != "" && read(path).Some? && decode(read(path).value).Success?
          && Psr4Section(decode(read(path).value).value).None? ==>
            r == Loaded(t, Wrapped(NoPsr4Message)))
  {
    FirstManifestSpec(Ancestors(sourceDir), files);
    assert NotFoundPrefix + "" == NotFoundPrefix;
  }
}

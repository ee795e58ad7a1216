/**
 * The PSR-4 autoloader of src/Psr4Autoloader.php: a table from namespace
 * prefix to base directory, the lookup that turns a class name into a file
 * to require, and the bootstrap that finds composer.json by walking up from
 * the class's own directory and registers its `autoload.psr-4` entries.
 *
 * The file system is a set of existing paths (`files`) and a reader
 * (`read`, file_get_contents); json_decode is the parameter `decode`, whose
 * failure carries json_last_error_msg(). The directory separator is '/'.
 */
module Psr4 {
  import opened Wrappers
  import opened PhpStrings
  import opened PhpPaths
  import opened PhpValues

  /** The `$namespaces` array: namespace prefix to base directory. */
  type Table = map<string, string>

  // ---------------------------------------------------------------------------
  // The mapping table and addNamespace
  // ---------------------------------------------------------------------------

  /** rtrim($prefix, '\\'). */
  function NormalizePrefix(prefix: string): string {
    RTrim(prefix, "\\")
  }

  /** rtrim($baseDir, DIRECTORY_SEPARATOR) . '/'. */
  function NormalizeBaseDir(baseDir: string): string {
    RTrim(baseDir, "/") + "/"
  }

  /** A stored key: no trailing namespace separator. */
  predicate IsNormalKey(k: string) {
    k == [] || k[|k| - 1] != '\\'
  }

  /** A stored base directory: it ends in exactly one '/'. */
  predicate IsNormalDir(d: string) {
    |d| > 0 && d[|d| - 1] == '/' && (|d| == 1 || d[|d| - 2] != '/')
  }

  /** Every entry of the table has the shape addNamespace gives it. */
  predicate Normalised(t: Table) {
    forall k | k in t :: IsNormalKey(k) && IsNormalDir(t[k])
  }

  /** The table after addNamespace($prefix, $baseDir). */
  function WithNamespace(t: Table, prefix: string, baseDir: string): (r: Table)
    ensures r.Keys == t.Keys + {NormalizePrefix(prefix)}
    ensures r[NormalizePrefix(prefix)] == NormalizeBaseDir(baseDir)
    ensures forall k | k in t && k != NormalizePrefix(prefix) :: r[k] == t[k]
  {
    t[NormalizePrefix(prefix) := NormalizeBaseDir(baseDir)]
  }

  /** addNamespace applied to each (prefix, base directory) pair in order. */
  function AddAll(t: Table, pairs: seq<(string, string)>): (r: Table)
    ensures t.Keys <= r.Keys
    ensures forall i | 0 <= i < |pairs| :: NormalizePrefix(pairs[i].0) in r
  {
    if pairs == [] then t
    else
      var init := pairs[..|pairs| - 1];
      var last := pairs[|pairs| - 1];
      assert forall i | 0 <= i < |init| :: init[i] == pairs[i];
      WithNamespace(AddAll(t, init), last.0, last.1)
  }

  /** What addNamespace stores has the normal shape, whatever the arguments. */
  lemma NormalizedShape(prefix: string, baseDir: string)
    ensures IsNormalKey(NormalizePrefix(prefix))
    ensures IsNormalDir(NormalizeBaseDir(baseDir))
  {
  }

  /** addNamespace keeps every entry of the table in normal shape. */
  lemma WithNamespaceNormalised(t: Table, prefix: string, baseDir: string)
    requires Normalised(t)
    ensures Normalised(WithNamespace(t, prefix, baseDir))
  {
    NormalizedShape(prefix, baseDir);
  }

  /** So does any sequence of addNamespace calls. */
  lemma {:induction false} AddAllNormalised(t: Table, pairs: seq<(string, string)>)
    ensures Normalised(t) ==> Normalised(AddAll(t, pairs))
  {
    if pairs != [] && Normalised(t) {
      AddAllNormalised(t, pairs[..|pairs| - 1]);
      var last := pairs[|pairs| - 1];
      WithNamespaceNormalised(AddAll(t, pairs[..|pairs| - 1]), last.0, last.1);
    }
  }

  // ---------------------------------------------------------------------------
  // loadClass and fcqnToPath
  // ---------------------------------------------------------------------------

  const PhpExtension := ".php"

  /** The extension appended to every path holds no namespace separator. */
  lemma PhpExtensionShape()
    ensures '\\' !in PhpExtension
  {
  }

  /** fcqnToPath($fqcn, $prefix): ltrim by the characters of the prefix, ltrim
      backslashes, turn the remaining namespace separators into '/', add ".php". */
  function FcqnToPath(fqcn: string, prefix: string): (r: string)
    requires NoRangeSyntax(prefix)
    ensures '\\' !in r
    ensures EndsWith(r, PhpExtension)
  {
    var relativeClass := LTrim(LTrim(fqcn, prefix), "\\");
    var path := ReplaceChar(relativeClass, '\\', '/');
    assert '\\' !in path;
    PhpExtensionShape();
    AppendShape(path, PhpExtension, '\\');
    path + PhpExtension
  }

  /** The class names loadClass is modelled for: strtok finds a first segment, and that
      segment, used as an ltrim mask, has no range syntax. */
  predicate Resolvable(className: string) {
    StrTok(className, '\\').Some? && NoRangeSyntax(StrTok(className, '\\').value)
  }

  /** The file loadClass would require for `className`, before asking whether it exists:
      None when the first segment is not a key of the table. */
  function CandidateFile(t: Table, className: string): (r: Option<string>)
    requires Resolvable(className)
    ensures r.Some? <==> StrTok(className, '\\').value in t
    ensures r.Some? ==>
      var baseDir := t[StrTok(className, '\\').value];
      && StartsWith(r.value, baseDir)
      && EndsWith(r.value, PhpExtension)
      && '\\' !in r.value[|baseDir|..]
  {
    var prefix := StrTok(className, '\\').value;
    if prefix !in t then None
    else
      var baseDirectory := t[prefix];
      var path := FcqnToPath(className, prefix);
      PrependShape(baseDirectory, path, PhpExtension);
      Some(baseDirectory + path)
  }

  // ---------------------------------------------------------------------------
  // The upward search for composer.json
  // ---------------------------------------------------------------------------

  const ManifestName := "composer.json"

  /** $dir . '/composer.json'. */
  function ManifestPath(dir: string): string {
    dir + "/" + ManifestName
  }

  /** The directories the search examines from `dir`: `dir` itself, then each parent
      in turn, stopping as soon as the root is reached; the root itself is never examined. */
  function Ancestors(dir: string): (ds: seq<string>)
    requires IsAbsolute(dir)
    ensures ds == [] <==> dir == "/"
    decreases |dir|
  {
    if dir == "/" then [] else [dir] + Ancestors(Dirname(dir))
  }

  /** Index of the first directory in `ds` holding composer.json, or |ds|. */
  function FirstWithManifest(ds: seq<string>, files: set<string>): (k: nat)
    ensures k <= |ds|
    ensures k < |ds| ==> FileExists(files, ManifestPath(ds[k]))
    ensures forall j | 0 <= j < k :: !FileExists(files, ManifestPath(ds[j]))
  {
    if ds == [] then 0
    else if FileExists(files, ManifestPath(ds[0])) then 0
    else 1 + FirstWithManifest(ds[1..], files)
  }

  /** The composer.json of the first directory in `ds` that holds one, or "". */
  function FirstManifest(ds: seq<string>, files: set<string>): string {
    var k := FirstWithManifest(ds, files);
    if k < |ds| then ManifestPath(ds[k]) else ""
  }

  /** The composer.json the search from `start` settles on. */
  function NearestManifest(start: string, files: set<string>): (path: string)
    requires IsAbsolute(start)
    ensures path != "" ==> FileExists(files, path)
    ensures path == "" <==>
      forall i | 0 <= i < |Ancestors(start)| :: !FileExists(files, ManifestPath(Ancestors(start)[i]))
  {
    FirstManifestSpec(Ancestors(start), files);
    FirstManifest(Ancestors(start), files)
  }

  /** Nothing is found exactly when no directory holds composer.json; otherwise the
      result exists and is the composer.json of the first directory that holds one. */
  lemma FirstManifestSpec(ds: seq<string>, files: set<string>)
    ensures var path := FirstManifest(ds, files);
      && (path == "" <==> forall i | 0 <= i < |ds| :: !FileExists(files, ManifestPath(ds[i])))
      && (path != "" ==> FileExists(files, path))
      && forall i | 0 <= i < |ds| && FileExists(files, ManifestPath(ds[i])) ::
           (forall j | 0 <= j < i :: !FileExists(files, ManifestPath(ds[j]))) ==> path == ManifestPath(ds[i])
  {
    var k := FirstWithManifest(ds, files);
    if k < |ds| {
      assert FileExists(files, ManifestPath(ds[k]));
      forall i | 0 <= i < |ds| && FileExists(files, ManifestPath(ds[i]))
        ensures (forall j | 0 <= j < i :: !FileExists(files, ManifestPath(ds[j]))) ==> FirstManifest(ds, files) == ManifestPath(ds[i])
      {
        if i != k && forall j | 0 <= j < i :: !FileExists(files, ManifestPath(ds[j])) {
          assert false;
        }
      }
    }
  }

  /** Directories without composer.json in front of a list only shift the index. */
  lemma {:induction false} FirstWithManifestSkip(seen: seq<string>, rest: seq<string>, files: set<string>)
    requires forall j | 0 <= j < |seen| :: !FileExists(files, ManifestPath(seen[j]))
    ensures FirstWithManifest(seen + rest, files) == |seen| + FirstWithManifest(rest, files)
  {
    if seen != [] {
      assert (seen + rest)[0] == seen[0];
      assert !FileExists(files, ManifestPath(seen[0]));
      assert (seen + rest)[1..] == seen[1..] + rest;
      assert forall j | 0 <= j < |seen| - 1 :: seen[1..][j] == seen[j + 1];
      FirstWithManifestSkip(seen[1..], rest, files);
    } else {
      assert seen + rest == rest;
    }
  }

  /** After directories without composer.json, the first one that has it is found. */
  lemma FirstManifestAfter(seen: seq<string>, rest: seq<string>, files: set<string>)
    requires forall j | 0 <= j < |seen| :: !FileExists(files, ManifestPath(seen[j]))
    requires rest != [] && FileExists(files, ManifestPath(rest[0]))
    ensures FirstManifest(seen + rest, files) == ManifestPath(rest[0])
  {
    FirstWithManifestSkip(seen, rest, files);
    assert (seen + rest)[|seen|] == rest[0];
  }

  /** Directories none of which has composer.json yield nothing. */
  lemma FirstManifestNone(seen: seq<string>, files: set<string>)
    requires forall j | 0 <= j < |seen| :: !FileExists(files, ManifestPath(seen[j]))
    ensures FirstManifest(seen, files) == ""
  {
    FirstWithManifestSkip(seen, [], files);
    assert seen + [] == seen;
  }

  /** One step of the walk: `dir` is examined, then its dirname. */
  lemma AncestorsStep(seen: seq<string>, dir: string)
    requires IsAbsolute(dir) && dir != "/"
    ensures seen + Ancestors(dir) == (seen + [dir]) + Ancestors(Dirname(dir))
  {
    assert Ancestors(dir) == [dir] + Ancestors(Dirname(dir));
  }

  /** A directory without composer.json joins those already examined. */
  lemma NoManifestExtend(seen: seq<string>, dir: string, files: set<string>)
    requires forall j | 0 <= j < |seen| :: !FileExists(files, ManifestPath(seen[j]))
    requires !FileExists(files, ManifestPath(dir))
    ensures forall j | 0 <= j < |seen + [dir]| :: !FileExists(files, ManifestPath((seen + [dir])[j]))
  {
    var seen' := seen + [dir];
    forall j | 0 <= j < |seen'|
      ensures !FileExists(files, ManifestPath(seen'[j]))
    {
      if j < |seen| {
        assert seen'[j] == seen[j];
      }
    }
  }

  /** The walk stops at `dir` when it has composer.json: that file is the nearest one. */
  lemma SearchFound(start: string, seen: seq<string>, dir: string, files: set<string>)
    requires IsAbsolute(start) && IsAbsolute(dir) && dir != "/"
    requires Ancestors(start) == seen + Ancestors(dir)
    requires forall j | 0 <= j < |seen| :: !FileExists(files, ManifestPath(seen[j]))
    requires FileExists(files, ManifestPath(dir))
    ensures NearestManifest(start, files) == ManifestPath(dir)
  {
    assert Ancestors(dir)[0] == dir;
    FirstManifestAfter(seen, Ancestors(dir), files);
  }

  /** The walk reaches the root without finding composer.json: nothing is found. */
  lemma SearchExhausted(start: string, seen: seq<string>, files: set<string>)
    requires IsAbsolute(start)
    requires Ancestors(start) == seen + Ancestors("/")
    requires forall j | 0 <= j < |seen| :: !FileExists(files, ManifestPath(seen[j]))
    ensures NearestManifest(start, files) == ""
  {
    assert Ancestors(start) == seen;
    FirstManifestNone(seen, files);
  }

  /** Lines 107-119: the while loop that walks up from `start`. */
  method LocateComposerJson(start: string, files: set<string>) returns (composerJsonPath: string)
    requires IsAbsolute(start)
    ensures composerJsonPath == NearestManifest(start, files)
  {
    var dir := start;
    composerJsonPath := "";
    ghost var seen: seq<string> := [];
    while dir != "/" && dir != ""
      invariant IsAbsolute(dir)
      invariant Ancestors(start) == seen + Ancestors(dir)
      invariant forall j | 0 <= j < |seen| :: !FileExists(files, ManifestPath(seen[j]))
      invariant composerJsonPath == ""
      decreases |dir|
    {
      var potentialPath := ManifestPath(dir);
      if FileExists(files, potentialPath) {
        composerJsonPath := potentialPath;
        SearchFound(start, seen, dir, files);
        return;
      }
      AncestorsStep(seen, dir);
      NoManifestExtend(seen, dir, files);
      seen := seen + [dir];
      dir := Dirname(dir);
    }
    SearchExhausted(start, seen, files);
  }

  // ---------------------------------------------------------------------------
  // loadMappingsFromComposer
  // ---------------------------------------------------------------------------

  /** The one exception type the bootstrap raises. */
  datatype RuntimeException = RuntimeException(message: string)

  /** The table after loadMappingsFromComposer, and what it returned or threw. */
  datatype Loaded = Loaded(table: Table, outcome: Result<bool, RuntimeException>)

  const WrapPrefix := "Unable to load composer.json: "
  const NotFoundPrefix := "composer.json file not found at: "
  const ReadFailedPrefix := "Failed to read composer.json from: "
  const InvalidJsonPrefix := "Invalid JSON in composer.json: "
  const NoPsr4Message := "No PSR-4 configuration found in composer.json"

  /** The catch block of lines 144-146: any failure becomes one RuntimeException. */
  function Wrapped(message: string): (r: Result<bool, RuntimeException>)
    ensures r.Failure? && StartsWith(r.error.message, WrapPrefix)
  {
    var m := WrapPrefix + message;
    assert m[..|WrapPrefix|] == WrapPrefix;
    Failure(RuntimeException(m))
  }

  /** $configuration['autoload']['psr-4'] when it is set and is an array. */
  function Psr4Section(configuration: Value): (r: Option<seq<(string, Value)>>)
    ensures r.Some? <==>
      && configuration.Array?
      && Lookup(configuration.entries, "autoload").Some?
      && Lookup(configuration.entries, "autoload").value.Array?
      && Lookup(Lookup(configuration.entries, "autoload").value.entries, "psr-4").Some?
      && Lookup(Lookup(configuration.entries, "autoload").value.entries, "psr-4").value.Array?
    ensures r.Some? ==>
      Lookup(Lookup(configuration.entries, "autoload").value.entries, "psr-4").value == Array(r.value)
  {
    match configuration
    case Array(top) =>
      (match Lookup(top, "autoload")
       case Some(Array(autoload)) =>
         (match Lookup(autoload, "psr-4")
          case Some(Array(entries)) => Some(entries)
          case _ => None)
       case _ => None)
    case _ => None
  }

  /** Index of the first psr-4 entry whose value addNamespace refuses, or |entries|. */
  function FirstTypeError(entries: seq<(string, Value)>): (k: nat)
    ensures k <= |entries|
    ensures k < |entries| ==> StringArgument(entries[k].1).None?
    ensures forall j | 0 <= j < k :: StringArgument(entries[j].1).Some?
  {
    if entries == [] then 0
    else if StringArgument(entries[0].1).None? then 0
    else 1 + FirstTypeError(entries[1..])
  }

  /** The (prefix, base directory) strings addNamespace receives for each entry. */
  function StringEntries(entries: seq<(string, Value)>): (pairs: seq<(string, string)>)
    requires forall j | 0 <= j < |entries| :: StringArgument(entries[j].1).Some?
    ensures |pairs| == |entries|
    ensures forall j | 0 <= j < |entries| ::
      pairs[j] == (entries[j].0, StringArgument(entries[j].1).value)
  {
    if entries == [] then []
    else
      var last := entries[|entries| - 1];
      StringEntries(entries[..|entries| - 1]) + [(last.0, StringArgument(last.1).value)]
  }

  /** Registering one more entry extends the fold by one addNamespace. */
  lemma AddAllStep(t: Table, entries: seq<(string, Value)>, i: nat)
    requires i < |entries|
    requires forall j | 0 <= j <= i :: StringArgument(entries[j].1).Some?
    ensures AddAll(t, StringEntries(entries[..i + 1]))
         == WithNamespace(AddAll(t, StringEntries(entries[..i])),
                          entries[i].0, StringArgument(entries[i].1).value)
  {
    var pairs := StringEntries(entries[..i + 1]);
    assert entries[..i + 1][..i] == entries[..i];
    assert pairs[..i] == StringEntries(entries[..i]);
  }

  /** The message of the TypeError the call on line 140 raises; `sourceDir` is the
      directory of src/Psr4Autoloader.php. */
  function TypeErrorMessage(sourceDir: string, v: Value): (m: string)
    ensures StartsWith(m, TypeErrorHead + TypeName(v) + TypeErrorMiddle + sourceDir)
    ensures EndsWith(m, TypeErrorTail)
  {
    var head := TypeErrorHead + TypeName(v) + TypeErrorMiddle + sourceDir;
    PrependShape(head, TypeErrorTail, TypeErrorTail);
    head + TypeErrorTail
  }

  const TypeErrorHead :=
    "AlmostUsable\\Psr4Autoloader\\Psr4Autoloader::addNamespace(): Argument #2 ($baseDir) must be of type string, "
  const TypeErrorMiddle := " given, called in "
  const TypeErrorTail := "/Psr4Autoloader.php on line 140"

  /** The table after the foreach: every entry before the first refused one registered. */
  function RegisteredBefore(t: Table, entries: seq<(string, Value)>): Table {
    var k := FirstTypeError(entries);
    assert forall j | 0 <= j < k :: entries[..k][j] == entries[j];
    AddAll(t, StringEntries(entries[..k]))
  }

  /** Lines 139-143: the foreach over the psr-4 entries; the entries before the first
      one addNamespace refuses stay registered. */
  function RegisterEntries(t: Table, sourceDir: string, entries: seq<(string, Value)>): (r: Loaded)
    ensures r.outcome.Success? ==> r.outcome.value
    ensures r.outcome.Failure? ==> StartsWith(r.outcome.error.message, WrapPrefix)
    ensures Normalised(t) ==> Normalised(r.table)
  {
    var k := FirstTypeError(entries);
    var added := RegisteredBefore(t, entries);
    AddAllNormalised(t, StringEntries(entries[..k]));
    if k < |entries| then Loaded(added, Wrapped(TypeErrorMessage(sourceDir, entries[k].1)))
    else Loaded(added, Success(true))
  }

  /** Lines 121-143 once the search has settled on `path`. */
  function LoadManifestFile(
    t: Table, sourceDir: string, path: string, files: set<string>,
    read: string -> Option<string>, decode: string -> Result<Value, string>): (r: Loaded)
    ensures r.outcome.Success? ==> r.outcome.value
    ensures r.outcome.Failure? ==> StartsWith(r.outcome.error.message, WrapPrefix)
    ensures Normalised(t) ==> Normalised(r.table)
  {
    if !FileExists(files, path) then
      Loaded(t, Wrapped(NotFoundPrefix + path))
    else match read(path)
      case None => Loaded(t, Wrapped(ReadFailedPrefix + path))
      case Some(content) =>
        match decode(content)
        case Failure(error) => Loaded(t, Wrapped(InvalidJsonPrefix + error))
        case Success(configuration) =>
          match Psr4Section(configuration)
          case None => Loaded(t, Wrapped(NoPsr4Message))
          case Some(entries) => RegisterEntries(t, sourceDir, entries)
  }

  /** loadMappingsFromComposer started in `sourceDir` on table `t`. */
  function LoadMappings(
    t: Table, sourceDir: string, files: set<string>,
    read: string -> Option<string>, decode: string -> Result<Value, string>): (r: Loaded)
    requires IsAbsolute(sourceDir)
    ensures NearestManifest(sourceDir, files) == "" ==> r.table == t && r.outcome.Failure?
    ensures r.outcome.Success? ==> r.outcome.value
    ensures r.outcome.Failure? ==> StartsWith(r.outcome.error.message, WrapPrefix)
    ensures Normalised(t) ==> Normalised(r.table)
  {
    LoadManifestFile(t, sourceDir, NearestManifest(sourceDir, files), files, read, decode)
  }

  // ---------------------------------------------------------------------------
  // The class
  // ---------------------------------------------------------------------------

  class Psr4Autoloader {
    /** The namespace prefixes and their base directories. */
    var namespaces: Table
    /** The files `require`d by loadClass, in order. */
    ghost var required: seq<string>

    ghost predicate Valid()
      reads this
    {
      Normalised(namespaces)
    }

    constructor ()
      ensures Valid()
      ensures namespaces == map[] && required == []
    {
      namespaces := map[];
      required := [];
    }

    /** addNamespace (lines 40-45): store the normalised base directory under the
        normalised prefix, replacing any earlier entry for that prefix. */
    method AddNamespace(prefix: string, baseDir: string)
      requires Valid()
      modifies this`namespaces
      ensures Valid()
      ensures namespaces == WithNamespace(old(namespaces), prefix, baseDir)
      ensures NormalizePrefix(prefix) in namespaces
      ensures forall k | k != NormalizePrefix(prefix) && k in old(namespaces) ::
        k in namespaces && namespaces[k] == old(namespaces)[k]
    {
      WithNamespaceNormalised(namespaces, prefix, baseDir);
      var normalPrefix := NormalizePrefix(prefix);
      var normalBaseDir := NormalizeBaseDir(baseDir);
      namespaces := namespaces[normalPrefix := normalBaseDir];
    }

    /** Lines 53-79: `files` are the paths that exist; requiring a file appends it to
        `required`. */
    method LoadClass(className: string, files: set<string>) returns (loaded: bool)
      requires Valid()
      requires Resolvable(className)
      modifies this`required
      ensures namespaces == old(namespaces)
      ensures loaded <==>
        CandidateFile(namespaces, className).Some? && CandidateFile(namespaces, className).value in files
      ensures required ==
        if loaded then old(required) + [CandidateFile(namespaces, className).value] else old(required)
    {
      var prefix := StrTok(className, '\\').value;
      if prefix !in namespaces {
        return false;
      }
      var baseDirectory := namespaces[prefix];
      var path := FcqnToPath(className, prefix);
      var file := baseDirectory + path;
      if file in files {
        required := required + [file];
        return true;
      }
      return false;
    }

    /** Lines 104-147; `sourceDir` stands for __DIR__. */
    method LoadMappingsFromComposer(
      sourceDir: string, files: set<string>,
      read: string -> Option<string>, decode: string -> Result<Value, string>)
      returns (r: Result<bool, RuntimeException>)
      requires Valid()
      requires IsAbsolute(sourceDir)
      modifies this`namespaces
      ensures Valid()
      ensures namespaces == LoadMappings(old(namespaces), sourceDir, files, read, decode).table
      ensures r == LoadMappings(old(namespaces), sourceDir, files, read, decode).outcome
    {
      var composerJsonPath := LocateComposerJson(sourceDir, files);
      if !FileExists(files, composerJsonPath) {
        return Wrapped(NotFoundPrefix + composerJsonPath);
      }
      var content := read(composerJsonPath);
      if content.None? {
        return Wrapped(ReadFailedPrefix + composerJsonPath);
      }
      var configuration := decode(content.value);
      if configuration.Failure? {
        return Wrapped(InvalidJsonPrefix + configuration.error);
      }
      var section := Psr4Section(configuration.value);
      if section.None? {
        return Wrapped(NoPsr4Message);
      }
      r := RegisterPsr4Entries(sourceDir, section.value);
    }

    /** Lines 139-143: the foreach that hands each psr-4 entry to addNamespace; a value
        addNamespace refuses ends it with the TypeError, wrapped as on line 145. */
    method RegisterPsr4Entries(sourceDir: string, entries: seq<(string, Value)>)
      returns (r: Result<bool, RuntimeException>)
      requires Valid()
      modifies this`namespaces
      ensures Valid()
      ensures namespaces == RegisterEntries(old(namespaces), sourceDir, entries).table
      ensures r == RegisterEntries(old(namespaces), sourceDir, entries).outcome
    {
      ghost var t0 := namespaces;
      var i := 0;
      while i < |entries|
        invariant 0 <= i <= FirstTypeError(entries)
        invariant Valid()
        invariant namespaces == AddAll(t0, StringEntries(entries[..i]))
      {
        var baseDir := StringArgument(entries[i].1);
        if baseDir.None? {
          assert i == FirstTypeError(entries);
          return Wrapped(TypeErrorMessage(sourceDir, entries[i].1));
        }
        AddAllStep(t0, entries, i);
        AddNamespace(entries[i].0, baseDir.value);
        i := i + 1;
      }
      assert entries[..i] == entries;
      return Success(true);
    }
  }
}

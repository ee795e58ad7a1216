/**
 * Worked scenarios: a repository whose composer.json maps "App\\" to "app/",
 * and the leading-backslash and one-entry cases.
 */
module Psr4Scenarios {
  import opened Wrappers
  import opened PhpStrings
  import opened PhpPaths
  import opened PhpValues
  import opened Psr4
  import opened Psr4Properties

  /** json_decode of {"autoload":{"psr-4":{"App\\":"app/"}}}. */
  const AppManifest: Value :=
    Array([("autoload", Array([("psr-4", Array([("App\\", Str("app/"))]))]))])

  lemma RepositoryNames()
    ensures "/repo" + "/" + "src" == "/repo/src"
    ensures ManifestPath("/repo/src") == "/repo/src/composer.json"
    ensures ManifestPath("/repo") == "/repo/composer.json"
    ensures '/' !in "src"
  {
  }

  /** From src/ of a repository whose root holds composer.json, the search settles on
      the file at the root of the repository. */
  lemma SearchFindsRepositoryManifest(files: set<string>)
    requires "/repo/composer.json" in files && "/repo/src/composer.json" !in files
    ensures NearestManifest("/repo/src", files) == "/repo/composer.json"
  {
    RepositoryNames();
    ParentManifestFound("/repo", "src", files);
  }

  /** The psr-4 section of the manifest is its single entry. */
  lemma AppManifestSection()
    ensures Psr4Section(AppManifest) == Some([("App\\", Str("app/"))])
    ensures StringEntries([("App\\", Str("app/"))]) == [("App\\", "app/")]
  {
    var entries := [("App\\", Str("app/"))];
    var autoload := [("psr-4", Array(entries))];
    assert FindKey(autoload, "psr-4") == 0;
    var top := [("autoload", Array(autoload))];
    assert FindKey(top, "autoload") == 0;
    assert entries[..0] == [];
  }

  lemma AppNames()
    ensures "App" + "\\" == "App\\" && "app" + "/" == "app/"
  {
  }

  /** Registering "App\\" => "app/" stores the key "App" with the directory "app/". */
  lemma AppEntryTable()
    ensures AddAll(map[], [("App\\", "app/")]) == map["App" := "app/"]
  {
    AppNames();
    RTrimIgnoresMaskSuffix("App", "\\", "\\");
    RTrimFixed("App", "\\");
    RTrimIgnoresMaskSuffix("app", "/", "/");
    RTrimFixed("app", "/");
    assert [("App\\", "app/")][..0] == [];
  }

  /** The whole bootstrap: the table ends up as {"App": "app/"} and true is returned. */
  lemma AppManifestLoads(files: set<string>, read: string -> Option<string>,
                         decode: string -> Result<Value, string>, content: string)
    requires "/repo/composer.json" in files && "/repo/src/composer.json" !in files
    requires read("/repo/composer.json") == Some(content)
    requires decode(content) == Success(AppManifest)
    ensures LoadMappings(map[], "/repo/src", files, read, decode) == Loaded(map["App" := "app/"], Success(true))
  {
    var entries := [("App\\", Str("app/"))];
    SearchFindsRepositoryManifest(files);
    AppManifestSection();
    assert StringArgument(entries[0].1) == Some("app/");
    ManifestRegistersAll(map[], "/repo/src", files, read, decode, content, AppManifest, entries);
    AppEntryTable();
  }

  lemma ModelsUserName()
    ensures "App" + "\\" + "Models\\User" == "App\\Models\\User"
    ensures "app/" + "Models/User.php" == "app/Models/User.php"
    ensures "Models\\User" == "Models" + ['\\'] + "User"
    ensures "Models" + ['/'] + "User" + ".php" == "Models/User.php"
    ensures '\\' !in "Models" && '\\' !in "User"
    ensures '\\' !in "App" && NoRangeSyntax("App")
  {
  }

  lemma ModelsUserPath()
    ensures ReplaceChar(LTrim("Models\\User", "\\"), '\\', '/') + ".php" == "Models/User.php"
  {
    ModelsUserName();
    assert LTrim("Models\\User", "\\") == "Models\\User";
    ReplaceCharBetween("Models", "User", '\\', '/');
  }

  /** App\Models\User resolves to app/Models/User.php. */
  lemma AppClassResolves()
    ensures Resolvable("App\\Models\\User")
    ensures CandidateFile(map["App" := "app/"], "App\\Models\\User") == Some("app/Models/User.php")
  {
    ModelsUserName();
    ModelsUserPath();
    ResolveUnderKey(map["App" := "app/"], "App", "Models\\User");
  }

  lemma LeadingBackslashName()
    ensures "\\" + "App" + "\\" + "X" == "\\App\\X"
    ensures "App" + "\\" + "X" == "App" + ['\\'] + "X"
    ensures '\\' !in "App" && '\\' !in "X" && NoRangeSyntax("App")
    ensures "app/" + ("App" + ['/'] + "X" + ".php") == "app/App/X.php"
  {
  }

  /** With a leading backslash the first segment stays in the path: \App\X resolves to
      app/App/X.php, not app/X.php. */
  lemma LeadingBackslashKeepsSegment()
    ensures Resolvable("\\App\\X")
    ensures CandidateFile(map["App" := "app/"], "\\App\\X") == Some("app/App/X.php")
  {
    LeadingBackslashName();
    ResolveWithLeadingBackslash(map["App" := "app/"], "App", "X");
    ReplaceCharBetween("App", "X", '\\', '/');
  }

  /** A manifest with the single entry "Foo": "src/" yields exactly one mapping. */
  lemma OneEntryOneMapping()
    ensures AddAll(map[], [("Foo", "src/")]) == map["Foo" := "src/"]
  {
    var pairs := [("Foo", "src/")];
    assert pairs[..0] == [];
    assert RTrim("Foo", "\\") == "Foo";
    assert "src/"[..3] == "src";
    assert RTrim("src/", "/") == "src";
    assert "src" + "/" == "src/";
  }
}

# A verified model of almostusable/psr4-autoloader

`Psr4Autoloader` is a small PSR-4 autoloader for PHP. It keeps a table from
namespace prefix to base directory, `$namespaces`, which `addNamespace` fills
after trimming trailing separators. `loadClass` takes the first
`\`-separated segment of a class name, looks it up in the table and requires
`base directory . fcqnToPath(class, segment)` when that file exists.
`loadMappingsFromComposer` walks up from the class's own directory to the
nearest `composer.json`, decodes it and registers every `autoload.psr-4`
entry. Any failure on the way is rethrown as one `RuntimeException` whose
message starts with "Unable to load composer.json: ".

The model follows the PHP class member by member.

- `Psr4Autoloader` is a Dafny `class` with the field `namespaces`.
  - `AddNamespace` updates the field in place.
  - `LoadClass` only reads the field. It records each required file in a ghost log.
  - `LoadMappingsFromComposer` runs the upward search (`LocateComposerJson`, a `while` loop) and then the `foreach` (`RegisterPsr4Entries`, a loop calling `AddNamespace`).
- Every method is proved against a function that specifies it:
  - `WithNamespace` for `AddNamespace`;
  - `CandidateFile` for `LoadClass`;
  - `NearestManifest` for `LocateComposerJson`;
  - `RegisterEntries` for `RegisterPsr4Entries`;
  - `LoadMappings` for `LoadMappingsFromComposer`.
  The properties are then proved about those functions.
- The PHP built-ins the class relies on are modelled in their own modules:
  - `PhpStrings` has `rtrim` and `ltrim` with a character mask, the first `strtok` call and one-character `str_replace`.
  - `PhpPaths` has `dirname` and `file_exists`.
  - `PhpValues` has the value `json_decode($content, true)` returns, and the conversion PHP applies when such a value is passed to a `string` parameter.

The file system is a set of existing paths (`files`) plus a reader function
(`read`, for `file_get_contents`). `json_decode` and `json_last_error_msg` are the
parameter `decode`. `__DIR__` is the parameter `sourceDir`. The directory
separator is `/`.

The class is declared without `strict_types`, so PHP converts arguments in
coercive mode. A psr-4 value that is an integer or a boolean therefore reaches
`addNamespace` as a string. Only `null` and arrays raise the `TypeError` at
line 140. The model follows the code on this point: it does not treat every
non-string value as an error.

Files:

- `wrappers.dfy`: `Option` and `Result`.
- `php_strings.dfy`, `php_paths.dfy`, `php_values.dfy`: the PHP built-ins.
- `psr4_autoloader.dfy`: the table, the lookup, the search, the manifest loading and the class.
- `psr4_properties.dfy`: the properties.
- `psr4_scenarios.dfy`: worked examples, including a repository whose `composer.json` maps `App\` to `app/`.

## Model

| member | source | states |
|---|---|---|
| PhpStrings.RTrim | src/Psr4Autoloader.php:42-43 | rtrim: the result is the longest prefix that does not end in a mask character; everything cut off is in the mask |
| PhpStrings.LTrim | src/Psr4Autoloader.php:91 | ltrim: the result is the longest suffix that does not start with a mask character; everything cut off is in the mask |
| PhpStrings.StrTok | src/Psr4Autoloader.php:56 | strtok gives false exactly when every character is the delimiter. Otherwise it gives the maximal non-empty delimiter-free run that starts after the leading delimiters |
| PhpStrings.ReplaceChar | src/Psr4Autoloader.php:94 | str_replace of one character: same length; every occurrence of `from` becomes `to`; every other character is kept |
| PhpStrings.RTrimIgnoresMaskSuffix | src/Psr4Autoloader.php:42-43 | appending mask characters does not change the rtrim result |
| PhpStrings.LTrimDropsMaskedPrefix | src/Psr4Autoloader.php:91 | ltrim removes exactly a leading run of mask characters when the rest does not start with one |
| PhpStrings.StrTokOfSegment | src/Psr4Autoloader.php:56 | strtok of `segment\rest` is `segment` when the segment is non-empty and has no delimiter |
| PhpStrings.ReplaceCharConcat | src/Psr4Autoloader.php:94 | str_replace distributes over concatenation |
| PhpStrings.ReplaceCharBetween | src/Psr4Autoloader.php:94 | str_replace turns `a\b` into `a/b` for separator-free `a` and `b` |
| PhpPaths.Dirname | src/Psr4Autoloader.php:118 | dirname of an absolute path is absolute, and strictly shorter unless the path is `/` |
| PhpPaths.DirnameShape | src/Psr4Autoloader.php:118 | dirname is empty only for the empty path. For an absolute path other than `/` it is a proper ancestor: a shorter prefix ending at a separator, or the root. It never ends in `/` unless it is `/` |
| PhpPaths.FileExists | src/Psr4Autoloader.php:73 | file_exists: a path exists only if it is among the existing paths, and the empty path never exists |
| PhpPaths.DirnameOfChild | src/Psr4Autoloader.php:118 | dirname removes exactly one component: `dirname(parent/name)` is `parent`, or `/` when `parent` is empty |
| PhpValues.Lookup | src/Psr4Autoloader.php:135 | an array lookup finds a value exactly when some entry has the key, and the value is that of the first entry with the key |
| PhpValues.DecimalString | src/Psr4Autoloader.php:140 | the decimal string of an integer is signed exactly for negatives, is otherwise digits, denotes the integer, and has no leading zero (canonical form, so 7 gives "7") |
| PhpValues.StringArgument | src/Psr4Autoloader.php:140 | a `string` parameter refuses exactly null and arrays. It takes a string as is, an integer as its canonical decimal string, true as "1" and false as "" |
| Psr4.WithNamespace | src/Psr4Autoloader.php:42-44 | the table after addNamespace: the keys are the old ones plus the normalised prefix, which maps to the normalised directory; every other key keeps its value |
| Psr4.AddAll | src/Psr4Autoloader.php:139-141 | a sequence of addNamespace calls removes no key and leaves every named normalised prefix present |
| Psr4.NormalizedShape | src/Psr4Autoloader.php:42-43 | a stored key never ends in `\`, and a stored base directory ends in exactly one `/`, whatever the arguments |
| Psr4.WithNamespaceNormalised | src/Psr4Autoloader.php:40-45 | addNamespace keeps every table entry in that shape |
| Psr4.AddAllNormalised | src/Psr4Autoloader.php:139-141 | so does any sequence of addNamespace calls |
| Psr4.Psr4Autoloader.constructor | src/Psr4Autoloader.php:20 | the table starts empty and nothing has been required |
| Psr4.Psr4Autoloader.AddNamespace | src/Psr4Autoloader.php:40-45 | the new table is the old one with the normalised prefix mapped to the normalised directory. Every other key keeps its value, and the table stays normalised |
| Psr4.FcqnToPath | src/Psr4Autoloader.php:88-95 | the path has no `\` and ends in `.php` |
| Psr4.CandidateFile | src/Psr4Autoloader.php:56-70 | a file is chosen exactly when the first strtok segment is a key. The file starts with that key's base directory, ends in `.php` and has no `\` after the base directory |
| Psr4.Psr4Autoloader.LoadClass | src/Psr4Autoloader.php:53-79 | the table is unchanged. The result is true exactly when the candidate file exists, and the required-files log grows by that file only then |
| Psr4.Ancestors | src/Psr4Autoloader.php:111-119 | the walk examines no directory exactly when it starts at `/`, where the while condition fails at once; its order and stopping point are stated by AncestorsSteps |
| Psr4.NearestManifest | src/Psr4Autoloader.php:111-122 | the path the search settles on is "" exactly when no examined directory has composer.json; otherwise the file exists |
| Psr4.FirstWithManifest | src/Psr4Autoloader.php:111-116 | the index of the first directory holding composer.json, or the list length when none does |
| Psr4.FirstWithManifestSkip | src/Psr4Autoloader.php:111-119 | directories without composer.json before the rest of the list only shift that index |
| Psr4.FirstManifestSpec | src/Psr4Autoloader.php:111-122 | the search result is empty exactly when no examined directory holds composer.json. Otherwise the result exists and is the composer.json of the first directory that holds one |
| Psr4.SearchFound | src/Psr4Autoloader.php:112-115 | when the walk stops at a directory holding composer.json after directories without one, that file is the nearest one |
| Psr4.SearchExhausted | src/Psr4Autoloader.php:111-119 | when the walk reaches the root without finding composer.json, nothing is found |
| Psr4.LocateComposerJson | src/Psr4Autoloader.php:107-119 | the while loop returns the nearest composer.json above the start directory, or "" |
| Psr4.Wrapped | src/Psr4Autoloader.php:144-146 | every failure is a RuntimeException whose message starts with "Unable to load composer.json: " |
| Psr4.Psr4Section | src/Psr4Autoloader.php:135 | a psr-4 section is found exactly when the top level is an array whose `autoload` is an array whose `psr-4` is an array, and it is that array's entries |
| Psr4.TypeErrorMessage | src/Psr4Autoloader.php:140 | the TypeError message names the refused type and the calling file, and ends with the call site "/Psr4Autoloader.php on line 140" |
| Psr4.FirstTypeError | src/Psr4Autoloader.php:139-140 | the index of the first psr-4 entry whose value addNamespace refuses; every earlier value is accepted |
| Psr4.StringEntries | src/Psr4Autoloader.php:139-140 | the arguments addNamespace receives are, entry by entry, the key and the converted value |
| Psr4.AddAllStep | src/Psr4Autoloader.php:139-141 | registering one more entry extends the fold by exactly one addNamespace |
| Psr4.RegisterEntries | src/Psr4Autoloader.php:139-146 | the foreach returns true on success, fails only with a wrapped message, and keeps the table normalised |
| Psr4.LoadManifestFile | src/Psr4Autoloader.php:121-146 | from a found path, the bootstrap returns true on success, fails only with a wrapped message, and keeps the table normalised |
| Psr4.LoadMappings | src/Psr4Autoloader.php:104-147 | the bootstrap from `sourceDir`: nothing found leaves the table untouched and fails; otherwise true on success, a wrapped message on failure, and the table stays normalised |
| Psr4.Psr4Autoloader.RegisterPsr4Entries | src/Psr4Autoloader.php:139-146 | the foreach loop leaves exactly the table and result of the fold specification, and keeps the table normalised |
| Psr4.Psr4Autoloader.LoadMappingsFromComposer | src/Psr4Autoloader.php:104-147 | the method leaves exactly the table and result that the bootstrap specification gives for the old table, and keeps the table normalised |
| Psr4Properties.TrailingSeparatorsIgnored | src/Psr4Autoloader.php:42-43 | trailing `\` on the prefix and trailing `/` on the directory do not change the table |
| Psr4Properties.TrailingSeparatorExample | src/Psr4Autoloader.php:42-43 | ("Foo\\", "src") and ("Foo", "src/") give the same table |
| Psr4Properties.AddNamespaceIdempotent | src/Psr4Autoloader.php:44 | repeating a call changes nothing. One call adds at most one key, and none if the prefix was already a key |
| Psr4Properties.LaterCallOverwrites | src/Psr4Autoloader.php:44 | a later call with the same normalised prefix replaces the earlier directory |
| Psr4Properties.StoredEntryIsFixedPoint | src/Psr4Autoloader.php:42-44 | registering a stored key with its stored directory again leaves a normalised table unchanged |
| Psr4Properties.LastFor | src/Psr4Autoloader.php:139-141 | the index of the last pair whose prefix normalises to a key, or -1 |
| Psr4Properties.AddAllLastWins | src/Psr4Autoloader.php:139-141 | after a sequence of calls, each key holds the directory of the last call naming it, and keys no call names keep their old value |
| Psr4Properties.FcqnToPathOfPrefixed | src/Psr4Autoloader.php:91-94 | for `prefix\rest` the mask ltrim removes exactly the prefix, then the leading `\` of `rest` go |
| Psr4Properties.FcqnToPathLeadingBackslash | src/Psr4Autoloader.php:91-94 | for a name starting with `\`, the mask ltrim by a backslash-free prefix removes nothing, so only the leading backslashes go |
| Psr4Properties.KeyWithBackslashNeverSelected | src/Psr4Autoloader.php:56-61 | a key containing `\` can be deleted without changing any lookup |
| Psr4Properties.ResolveUnderKey | src/Psr4Autoloader.php:56-70 | `p\tail` with a one-segment key `p` resolves to `p`'s directory followed by the tail as a path |
| Psr4Properties.ResolveWithLeadingBackslash | src/Psr4Autoloader.php:56-91 | `\p\tail` looks up `p` but keeps it: it resolves to `p`'s directory followed by `p/tail.php` |
| Psr4Properties.AddThenResolve | src/Psr4Autoloader.php:40-70 | after addNamespace, a class under the prefix resolves to the normalised directory followed by its path |
| Psr4Properties.ProperAncestorTransitive | src/Psr4Autoloader.php:118 | being a proper ancestor is transitive |
| Psr4Properties.AncestorsSteps | src/Psr4Autoloader.php:111-119 | the search examines the start directory first, then each dirname in turn. Every examined directory is absolute and not `/`, and the walk stops when dirname reaches `/` |
| Psr4Properties.AncestorsAscend | src/Psr4Autoloader.php:111-119 | each examined directory is a proper ancestor of all the ones examined before it |
| Psr4Properties.StartManifestWins | src/Psr4Autoloader.php:111-116 | a composer.json in the start directory is the one found |
| Psr4Properties.ParentManifestFound | src/Psr4Autoloader.php:111-119 | if the start directory has no composer.json, the one in its parent is found |
| Psr4Properties.ManifestRegistersAll | src/Psr4Autoloader.php:121-143 | on success the table is the fold of addNamespace over all psr-4 entries in order, and the result is true |
| Psr4Properties.ManifestTypeErrorKeepsEarlierEntries | src/Psr4Autoloader.php:139-146 | a refused value stops the loop. The entries before it stay registered, and its TypeError is rethrown wrapped |
| Psr4Properties.ManifestFailuresBeforeRegistration | src/Psr4Autoloader.php:121-137 | not found, unreadable, invalid JSON or no psr-4 array each leave the table untouched and fail with their own wrapped message |
| Psr4Scenarios.SearchFindsRepositoryManifest | src/Psr4Autoloader.php:107-119 | from /repo/src, with composer.json only at /repo, the search finds /repo/composer.json |
| Psr4Scenarios.AppManifestSection | src/Psr4Autoloader.php:135 | the psr-4 section of {"autoload":{"psr-4":{"App\\":"app/"}}} is its one entry |
| Psr4Scenarios.AppEntryTable | src/Psr4Autoloader.php:139-141 | registering "App\\" => "app/" stores "App" => "app/" |
| Psr4Scenarios.AppManifestLoads | src/Psr4Autoloader.php:104-147 | bootstrapping with that manifest yields the table {"App": "app/"} and true |
| Psr4Scenarios.ModelsUserPath | src/Psr4Autoloader.php:91-94 | "Models\\User" becomes "Models/User.php" |
| Psr4Scenarios.AppClassResolves | src/Psr4Autoloader.php:53-95 | App\Models\User resolves to app/Models/User.php |
| Psr4Scenarios.LeadingBackslashKeepsSegment | src/Psr4Autoloader.php:56-94 | \App\X resolves to app/App/X.php, not app/X.php |
| Psr4Scenarios.OneEntryOneMapping | src/Psr4Autoloader.php:139-141 | a single entry "Foo" => "src/" yields exactly one mapping |

## Left out

- `register` (lines 28-31) hands `loadClass` to `spl_autoload_register`. That changes the runtime's global hook list, which has no counterpart in the model.
- `require $file` (line 74) executes the file. The model only appends the path to the ghost log `required`.
- `file_exists`, `file_get_contents`, `json_decode` and `json_last_error_msg` are parameters. `json_decode`'s parser itself is not modelled.
- Floating-point JSON numbers are not in `Value`. PHP would convert them to strings for `addNamespace`.
- Integers are unbounded. PHP's 64-bit limit on decoded integers is not modelled.
- PhpValues.Lookup: on a decoded object with duplicate keys it gives the value of the first entry, while PHP's json_decode keeps the last one; decoded arrays are taken to have distinct keys.
- `__DIR__` and `DIRECTORY_SEPARATOR` are not modelled as concrete values. The start directory is the parameter `sourceDir`, and the separator is `/`.
- Psr4.Psr4Autoloader.LoadMappingsFromComposer: requires an absolute start directory. From a relative one, PHP's loop would repeat forever at ".".
- Psr4.Psr4Autoloader.LoadClass: requires a class name that has a non-`\` character, because strtok gives false otherwise. It also requires that the first segment, used as an ltrim mask, contains no `..` range syntax.
- Psr4.FcqnToPath: requires a prefix without `..`, because ltrim would read `a..z` as a character range.
- Psr4.TypeErrorMessage: the wording is that of PHP 8 ("Argument #2 ($baseDir) must be of type string, … given"); PHP 7.4, which the typed property also allows, words it "Argument 2 passed to … must be of the type string". The message names `sourceDir/Psr4Autoloader.php` and line 140, which matches PHP only because `sourceDir` stands for the directory of that file.
- `autoloader.php` is not part of this model. It only constructs the autoloader, loads the mappings and registers it.

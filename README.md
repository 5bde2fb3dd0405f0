# Docs command of apiutil, modelled in Dafny

This project models the logic of the `util:docs` console command
(`console/src/Command/Docs.php`) of the apiutil documentation generator: a
Laravel/Dingo command that collects the controllers of the registered routes
for one audience ("document type") and hands them to the Blueprint generator,
after writing a README heading for that audience.

Modules, one per concern of the command:

- `Wrappers` — `Option` and `Result`, and `Exit`, whose three variants are
  the ways the command's getters end it with `exit` (no name, no version,
  unknown type).
- `Php` — the PHP semantics the command relies on: string truthiness
  (`""` and `"0"` are false), `?:`, `explode`/`implode` on one separator (with
  both round trips proved), `strtolower`, a boolean converted to a string,
  an out-of-range list index reading as null, and Laravel's `ends_with`.
- `DocTypes` — the five type codes, `MAPPING` (code to lower-case module name),
  `getType` and `createReadme`.
- `Settings` — `getOutputDir`, `getVersion`, `getDocName` and the
  constructor's defaults `"docs"` and `"v1"`.
- `Collector` — Laravel's `Collection` reduced to an insertion-ordered list of
  unique keys (a class whose `Put` method updates it in place),
  `addControllerIfNotExists` and `getControllers` as methods, and their
  specification: `AddIfAbsent` for one step, `Collected` for the whole walk,
  and an independent reference description `Kept` (first occurrences of
  matching classes, in route order) proved equal to it.
- `Docs` — the composition used by `handle`: controllers collected for
  `MAPPING[getType()]`.

The type filter of `addControllerIfNotExists` is modelled as written at
`console/src/Command/Docs.php:250`: `strtolower` is applied to the boolean
result of `===`, which becomes `"1"` or `""`, so the test holds exactly when
the second-to-last `\`-separated segment of the class name is identical,
case included, to the lower-case type name. The filter is therefore neither
always true nor case-insensitive: a controller in a `Business` namespace is
never collected for type 3 (`CapitalisedSegmentNotMatched`). A class name
without any `\` reads index -1; the model takes that read as null, so such a
class is never collected (PHP's "undefined offset" notice at that read is not
modelled; see "## Left out").

Reflection is replaced by data: a `Controller` carries its class name and its
interface names in reflection order; a `Route` may have no controller
instance. The routing table is a parameter (a sequence of route groups), the
directory separator and the configured output directory are parameters, and
the `--type` option is an optional integer.

## Model

| member | source | states |
|---|---|---|
| `DocTypes.MappingTotal` | console/src/Command/Docs.php:54-67 | MAPPING is defined on exactly the five codes 1..5, with 1→customer, 2→rider, 3→business, 4→pos, 5→common |
| `DocTypes.MappingLowerCase` | console/src/Command/Docs.php:61-67 | every module name in MAPPING is non-empty lower-case ASCII |
| `DocTypes.MappingInjective` | console/src/Command/Docs.php:61-67 | two different codes never share a module name |
| `DocTypes.GetType` | console/src/Command/Docs.php:156-164 | succeeds exactly when --type is set and is one of the five codes, returning that code (which MAPPING knows); a missing or 0 option and every other value end the command with TypeDoesNotExist |
| `DocTypes.CreateReadme` | console/src/Command/Docs.php:258-278 | the heading is non-empty exactly for the five codes and then starts with "# "; any other code gives the empty string |
| `DocTypes.CreateReadmeInjective` | console/src/Command/Docs.php:258-278 | different document types get different README headings |
| `DocTypes.CreateReadmeBusiness` | console/src/Command/Docs.php:267-269 | type 3 gives "# 商家端（商家APP/商家PC）" |
| `DocTypes.AcceptedTypeIsComplete` | console/src/Command/Docs.php:124-128 | every code getType accepts has a lower-case module name in MAPPING and a non-empty README |
| `Settings.GetOutputDir` | console/src/Command/Docs.php:169-172 | the directory always ends with the separator; before it stands --output-dir when truthy, else the configured directory |
| `Settings.GetVersion` | console/src/Command/Docs.php:189-200 | ends with VersionNotSupplied exactly when both --use-version and the configured version are falsy; otherwise returns the truthy option, else the configured version, and the result is truthy |
| `Settings.GetDocName` | console/src/Command/Docs.php:139-150 | ends with NameNotSupplied exactly when both --name and the configured name are falsy; otherwise returns the truthy option, else the configured name, and the result is truthy |
| `Settings.DefaultsNeverExit` | console/src/Command/Docs.php:98-105 | with the constructor's defaults "docs" and "v1" neither getter can end the command, whatever the options |
| `Settings.ZeroOptionFallsBack` | console/src/Command/Docs.php:191 | an option given as "0" is falsy, so the configured value is used |
| `Php.Truthy` | console/src/Command/Docs.php:141-143 | a PHP string is truthy exactly when it has two or more characters, or is one character other than "0" |
| `Php.OptionTruthy` | console/src/Command/Docs.php:158-159 | an unset option (null) is falsy; a set option is truthy exactly when its string is |
| `Php.EndsWith` | console/src/Command/Docs.php:243 | for a non-empty needle such as "Docs", ends_with holds exactly when the needle is no longer than the name and equals the name's last characters one by one; for the empty needle (substr from -0 is the whole string) only the empty name matches |
| `Php.Elvis` | console/src/Command/Docs.php:141 | `$option ?: $fallback` gives the option when it is set and truthy, the fallback otherwise |
| `Php.BoolToString` | console/src/Command/Docs.php:250 | a boolean converted to a string is truthy exactly when the boolean is true |
| `Php.StrToLower` | console/src/Command/Docs.php:250 | strtolower keeps the length and lower-cases each ASCII letter, leaving other characters alone |
| `Php.ElementAt` | console/src/Command/Docs.php:250 | reading `$arr[$i]` gives the element for an index inside the list and null otherwise (index -1 included) |
| `Php.Explode` | console/src/Command/Docs.php:249 | explode gives at least one piece and no piece contains the separator |
| `Php.ImplodeExplode` | console/src/Command/Docs.php:249 | joining the pieces of explode with the separator gives the class name back |
| `Php.ExplodeImplode` | console/src/Command/Docs.php:249 | exploding separator-free pieces joined with the separator gives the pieces back |
| `Php.ExplodeWithoutSeparator` | console/src/Command/Docs.php:249 | a class name without `\` explodes into itself alone, so count($arr)-2 is -1 |
| `Collector.Assign` | console/src/Command/Docs.php:251 | put keeps an existing key's position and gives it the new value, appends a new key at the end, changes no other entry, and keeps keys unique |
| `Collector.Collection.Has` | console/src/Command/Docs.php:236 | has($class) holds exactly when some entry of the collection is keyed by that class |
| `Collector.Collection.constructor` | console/src/Command/Docs.php:209 | a new collection is empty |
| `Collector.Collection.Put` | console/src/Command/Docs.php:251 | put updates the collection in place as Assign describes and keeps its keys unique |
| `Collector.FirstDocsInterface` | console/src/Command/Docs.php:242-244 | no result exactly when no interface name ends with "Docs"; otherwise a name of the controller's interfaces that ends with "Docs" |
| `Collector.FirstDocsInterfaceIsFirst` | console/src/Command/Docs.php:242-244 | the interface chosen is the first one, in reflection order, whose name ends with "Docs" |
| `Collector.SourceOf` | console/src/Command/Docs.php:240-248 | the stored value is the controller itself exactly when none of its interfaces ends with "Docs", and otherwise one of those "Docs" interfaces |
| `Collector.OwningSegment` | console/src/Command/Docs.php:249-250 | `$arr[count($arr)-2]` is the second-to-last `\`-separated segment when the class name has at least two, and null otherwise |
| `Collector.Matches` | console/src/Command/Docs.php:250 | the `if` condition as written (strtolower of the boolean `===` result, then truthiness) holds exactly when the owning segment is present and equals the type name, case-sensitively |
| `Collector.UnqualifiedNeverMatches` | console/src/Command/Docs.php:249-250 | a class name without `\` has no owning segment and never passes the test |
| `Collector.MatchesQualifiedName` | console/src/Command/Docs.php:249-250 | a class name built from at least two namespace segments is owned by its second-to-last segment and passes exactly when that segment is the type name |
| `Collector.CapitalisedSegmentNotMatched` | console/src/Command/Docs.php:250 | App\Http\Controllers\Business\OrderController is not collected for "business", App\Http\Controllers\business\OrderController is |
| `Collector.AddIfAbsent` | console/src/Command/Docs.php:232-253 | a class already present leaves the collection unchanged; otherwise at most one entry is appended, exactly when the class is new and matches, keyed by the concrete class name with its documentation source; existing entries and their order are kept and keys stay unique |
| `Collector.AddControllerIfNotExists` | console/src/Command/Docs.php:232-253 | updates the collection in place as AddIfAbsent describes and keeps its keys unique |
| `Collector.GetControllers` | console/src/Command/Docs.php:207-220 | returns a fresh collection with unique keys equal to adding every route's controller, group after group and route after route, skipping routes without one |
| `Collector.CollectedKeys` | console/src/Command/Docs.php:207-220 | a class is a key of the result exactly when some route has a controller of that class and the class matches the type |
| `Collector.CollectedIsKept` | console/src/Command/Docs.php:207-220 | the result equals the reference filter: the first occurrence of each matching class, in route order, with its documentation source |
| `Collector.CollectedUniqueKeys` | console/src/Command/Docs.php:207-220 | the result never holds a class twice |
| `Collector.CollectedEntriesMatch` | console/src/Command/Docs.php:207-220 | every key of the result is the class of some route's controller and matches the type |
| `Collector.FirstOccurrenceWins` | console/src/Command/Docs.php:234-238 | the first route with a given matching class determines the source stored under that class |
| `Docs.ControllersOfRequestedType` | console/src/Command/Docs.php:128 | for an accepted --type, the module name is lower-case and every collected class's owning segment is exactly that name |

## Left out

- `handle`: the directory clean-up, directory creation and the README write are file-system effects and are not modelled; as written it deletes every file under the output directory, keeping its subdirectories, before `getType` can end the command.
- `delDir`: recursive directory scanning and `unlink` are file-system I/O.
- `Blueprint::generate`: the generator is not part of this model; it is a call into code outside the command.
- `getIncludePath`: only forwards the option to Laravel's `base_path`, a framework call.
- `comment`/`info` console output: not modelled; each `exit` is an `Exit` value instead.
- `DocTypes.GetType`: the option is taken as an integer; PHP's loose `in_array` comparison of the option string against the integer codes is not modelled.
- `Collector.FirstDocsInterface`: tests the interface name; which argument Laravel's `Arr::first` passes to the callback first depends on the Laravel version, and the name is assumed.
- `Php.ElementAt`: an out-of-range read (index -1 for a class name without `\`) is modelled as a plain null; PHP also raises an "undefined offset" notice there, which Laravel's console error handler turns into an exception that ends the command, and that abort is not modelled.
- `Collector.Assign`: Laravel's `put` casts numeric-string keys to integers; class names are never numeric, so this is not modelled.
- `Php.StrToLower`: lower-cases ASCII letters only, as PHP 8.2 does; locale-dependent behaviour of older versions is not modelled.
- Reflection: replaced by the interface-name list of each `Controller`; the stored interface is represented by its name.
- The `Response` annotation class and the service provider: passive data and framework registration, no behaviour.

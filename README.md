# Nova framework configuration core, in Dafny

This project models the configuration core of the Nova framework's Unity configure package:

- the `LibraryTag` flag enumeration and how a list of tag names parses into one tag set;
- the `LibraryInfo` descriptor and its `IsContainsTag` query;
- the `EnvironmentVariables` singleton, a string-to-string store whose writes overwrite with a warning;
- `EnvironmentPath`, which turns a `ResourcePathType` member name such as `LinkLibraryPath` into the
  variable key `LINK_LIBRARY_PATH`, caches non-empty results per path type, and joins file paths;
- the tagged `DynamicLibrary` registry: a fixed core list, module and game lists filled by
  `RegisterLibraryInfo`, an AOT name list, name enumeration through a filtering callback, lookup
  by assembly name, and the `.dll` / `.dll.bytes` file paths of a registered library;
- the earlier `DynamicLibrary` of `Runtime/Common`, with two fixed lists flagged `tutorial` and `reloadable`.

The files, one module each:

| file | module | models |
|---|---|---|
| `wrappers.dfy` | `Wrappers` | `Option` (C# `null`), `Result` and `Outcome` (thrown exceptions) |
| `sequences.dfy` | `Sequences` | order-preserving sub-list, used for the enumeration results |
| `library_tag.dfy` | `Tags` | `Runtime/Base/LibraryTag.cs`, plus the `Enum.Parse` loop of registration |
| `library_info.dfy` | `Descriptors` | `Runtime/Base/LibraryInfo.cs` |
| `system_variable.dfy` | `Variables` | `Runtime/Base/SystemVariable.cs` |
| `environment_path.dfy` | `Paths` | `Runtime/Base/EnvironmentPath.cs` |
| `dynamic_library.dfy` | `Libraries` | `Runtime/Base/DynamicLibrary.cs` |
| `legacy_dynamic_library.dfy` | `LegacyLibraries` | `Runtime/Common/DynamicLibrary.cs` |

The C# static classes and singletons become Dafny classes. Each holds the mutable collections as
`seq` and `map` fields, and its methods state the whole new state. Where a method has a loop in the
source, it has the same loop here. Each loop is proved against a specification function: `Loaded`,
`SnakeCase`, `FilteredNames`, `FindByName`, `ParseTags`, `Listed`. The properties the source
promises are lemmas about those functions. The registry's state changes are also given as pure
functions on a `RegistryState` value (`Register`, `RegisterAot`). That lets an invariant be proved
once and then used by the method: each list holds only its classification, orders and names are
unique within a list, and AOT names are unique.

Where the code and its own documentation disagree, the model follows the code:

- `GetAllAssemblyNames` and `GetAllPlayableAssemblyNames` are documented as filtering only when a
  callback is given. The code skips every entry when the callback is `null`
  (`Runtime/Base/DynamicLibrary.cs:96`, `:106`, `:116`, `:142`, `:152`). The model returns an empty
  list for a `null` callback; `Libraries.NullCallbackYieldsNothing` states it.
- Registration checks for a duplicate order or name only inside the selected list. A game library
  may therefore reuse a module library's name, and a module must not reuse a core library's name
  only by convention. `Libraries.DuplicatesAcrossContainersAccepted` exhibits the first case.

## Model

| member | source | states |
|---|---|---|
| Tags.UnknownIsIdentity | Runtime/Base/LibraryTag.cs:40 | `Unknown` is the neutral element of bitwise OR, so it is a sound start for the OR-accumulation |
| Tags.NamedFlagsAreDistinctBits | Runtime/Base/LibraryTag.cs:46-83 | every named flag is a single bit and no two named flags share a bit |
| Tags.ClassificationFlagsInMask | Runtime/Base/LibraryTag.cs:46-56 | Core, Module and Game lie inside the `0x0f` mask and are their own pack type |
| Tags.ContainsAllOfUnion | Runtime/Base/LibraryInfo.cs:58-66 | a compound tag is contained exactly when each of its parts is |
| Tags.AttributeFlagKeepsPackType | Runtime/Base/LibraryTag.cs:62-83 | adding an attribute flag (Shared, Compile, Hotfix, Tutorial, Test) never changes the pack type |
| Tags.ParseTag | Runtime/Base/LibraryTag.cs:40-83 | a name parses exactly when it is `Unknown` or one of the eight flag names |
| Tags.ParseTagRoundTrip | Runtime/Base/LibraryTag.cs:40-83 | parsing each member's own name gives back that member |
| Tags.ParseTagsStep | Runtime/Base/DynamicLibrary.cs:253-256 | one more known name ORs its flag into the parsed prefix |
| Tags.ParseTagsStopsAt | Runtime/Base/DynamicLibrary.cs:253-256 | an unknown name after a parsed prefix is the error of the whole list |
| Tags.ParseTagsSucceedsIff | Runtime/Base/DynamicLibrary.cs:251-256 | the tag list parses exactly when every name is a member name |
| Tags.ParseTagsReportsFirstUnknown | Runtime/Base/DynamicLibrary.cs:253-256 | a failure reports the first unknown name, and every name before it is known |
| Tags.ParseTagsErrorPersists | Runtime/Base/DynamicLibrary.cs:253-256 | once a name fails, the names after it do not matter |
| Tags.ParseTagsUnion | Runtime/Base/DynamicLibrary.cs:251-256 | parsing a concatenation gives the union of the two parses |
| Tags.AttributeNamesKeepPackType | Runtime/Base/DynamicLibrary.cs:251-258 | appending attribute names never changes the container a tag list selects |
| Descriptors.LibraryInfo.IsContainsTag | Runtime/Base/LibraryInfo.cs:58-66 | a contained tag adds no bit to the library's tags, and a library contains a tag equal to its own tag set |
| Descriptors.UnknownAlwaysContained | Runtime/Base/LibraryInfo.cs:58-66 | every library contains `Unknown` |
| Descriptors.IsContainsTagOfUnion | Runtime/Base/LibraryInfo.cs:58-66 | `IsContainsTag` of the union of `a` and `b` holds exactly when both `IsContainsTag(a)` and `IsContainsTag(b)` hold |
| Descriptors.ContainsOwnTags | Runtime/Base/LibraryInfo.cs:51-66 | a library contains its own tag set |
| Variables.LoadedLastWins | Runtime/Base/SystemVariable.cs:66-89 | after loading pairs, a key is present exactly when it was before or occurs in the pairs; the last pair for a key wins; other keys keep their values |
| Variables.LoadedKeyCount | Runtime/Base/SystemVariable.cs:66-89 | there are at most as many overwrite warnings as pairs, and the key count grows by the pairs minus the overwrites |
| Variables.EnvironmentVariables.constructor | Runtime/Base/SystemVariable.cs:37 | the store starts empty, with no warnings |
| Variables.EnvironmentVariables.OnCleanup | Runtime/Base/SystemVariable.cs:57-60 | the store is emptied |
| Variables.EnvironmentVariables.SetValue | Runtime/Base/SystemVariable.cs:80-89 | the key now maps to the value, other keys are untouched, and a warning is logged exactly when the key was already present |
| Variables.EnvironmentVariables.SetValues | Runtime/Base/SystemVariable.cs:95-101 | the store becomes the old store overridden by the dictionary; one warning for each dictionary key that was already present, and no key is warned twice |
| Variables.EnvironmentVariables.AutoloadConfigurationVariableObjects | Runtime/Base/SystemVariable.cs:66-73 | a null list changes nothing; otherwise the objects are stored in order and every overwrite is warned |
| Variables.EnvironmentVariables.GetValue | Runtime/Base/SystemVariable.cs:108-114 | the stored value, or null exactly when the key is absent |
| Paths.ToUpper | Runtime/Base/EnvironmentPath.cs:127 | upper-cases a lower-case letter and leaves every other character as it is |
| Paths.UpperString | Runtime/Base/EnvironmentPath.cs:127 | `ToUpper` applied to each character, length kept |
| Paths.SnakeCaseShape | Runtime/Base/EnvironmentPath.cs:106-141 | the key is the name's length plus one `_` per capital after index 0, and starts with the name's first letter upper-cased |
| Paths.NoLeadingUnderscore | Runtime/Base/EnvironmentPath.cs:123-127 | the key never starts with a `_` the name does not have |
| Paths.SnakeCaseIsUpper | Runtime/Base/EnvironmentPath.cs:127 | the key holds no lower-case letter |
| Paths.SnakeCaseUnderscores | Runtime/Base/EnvironmentPath.cs:123-138 | the `_`s of the key are the name's own plus exactly one per word break |
| Paths.SnakeCaseStripped | Runtime/Base/EnvironmentPath.cs:106-141 | deleting the `_`s of the key gives back the upper-cased name, when the name has no `_` |
| Paths.RemoveUnderscoresConcat | Runtime/Base/EnvironmentPath.cs:126 | deleting `_`s distributes over concatenation |
| Paths.WordStep | Runtime/Base/EnvironmentPath.cs:123-130 | when a capital (or the end) closes a word, the key so far is the earlier key, a `_` unless it is the first word, and the word upper-cased |
| Paths.FirstWord | Runtime/Base/EnvironmentPath.cs:136-138 | a name with no later capital maps to itself upper-cased |
| Paths.AppendWord | Runtime/Base/EnvironmentPath.cs:123-130 | a capitalised word appended to a name adds `_` and the upper-cased word to its key |
| Paths.DocumentedExample | Runtime/Base/EnvironmentPath.cs:101-102 | "CoreEngineClassType" maps to "CORE_ENGINE_CLASS_TYPE" |
| Paths.LinkLibraryPathKey | Runtime/Base/EnvironmentPath.cs:106-141 | the registry's path type maps to "LINK_LIBRARY_PATH" |
| Paths.SingleWordExample | Runtime/Base/EnvironmentPath.cs:106-141 | a single word is upper-cased with no `_` |
| Paths.ConvertPathTypeToName | Runtime/Base/EnvironmentPath.cs:106-141 | the word-splitting loop computes `SnakeCase` of the member name, and the empty name maps to itself |
| Paths.Combine | Runtime/Base/EnvironmentPath.cs:82 | an empty side yields the other side; otherwise the result starts with the root and ends with the relative part |
| Paths.Normalize | Runtime/Base/EnvironmentPath.cs:82 | every `\` becomes `/` and nothing else changes |
| Paths.JoinFilePathShape | Runtime/Base/EnvironmentPath.cs:76-98 | a null or empty root is returned as it is; otherwise the file path has no `\` and begins with the normalised root |
| Paths.EnvironmentPath.constructor | Runtime/Base/EnvironmentPath.cs:36 | the cache starts empty |
| Paths.EnvironmentPath.GetPathByKey | Runtime/Base/EnvironmentPath.cs:65-68 | the value of the variable named by the key, or null when it is unset |
| Paths.EnvironmentPath.GetPath | Runtime/Base/EnvironmentPath.cs:43-57 | a cached value is returned whatever the store now holds; otherwise the converted key is looked up, and only a non-null, non-empty result is cached |
| Paths.EnvironmentPath.GetFilePath | Runtime/Base/EnvironmentPath.cs:76-83 | the resolved root joined with the combined parts and normalised, or the null/empty root itself; the cache changes as in `GetPath` |
| Paths.EnvironmentPath.GetFilePathByKey | Runtime/Base/EnvironmentPath.cs:91-98 | unset key gives null, empty value gives "", otherwise a path with no `\` that begins with the normalised value |
| Libraries.RegisterWithoutTagsFails | Runtime/Base/DynamicLibrary.cs:251-273 | a null or empty tag list is "Invalid library tag" |
| Libraries.RegisterClassification | Runtime/Base/DynamicLibrary.cs:258-273 | pack type Core is "Cannot register core library", pack types other than Module or Game are invalid, and a Module (Game) registration leaves the game (module) list alone |
| Libraries.ModuleAndGameIsInvalid | Runtime/Base/DynamicLibrary.cs:258-273 | tags naming both Module and Game are rejected as invalid |
| Libraries.RegisterSucceedsIff | Runtime/Base/DynamicLibrary.cs:249-287 | registration succeeds exactly when the names parse, the pack type is Module or Game and the selected list has no entry with the same order or name; an unknown name is reported, and a collision is "Library name is already registered" |
| Libraries.Classify | Runtime/Base/DynamicLibrary.cs:258-273 | the module list is selected exactly for pack type Module, the game list exactly for Game, "Cannot register core" exactly for Core, and every other pack type is "Invalid library tag" |
| Libraries.Register | Runtime/Base/DynamicLibrary.cs:249-287 | a success adds exactly one entry, to exactly one of the two lists, and leaves the AOT list alone; its errors are only the registration errors |
| Libraries.RegisterAot | Runtime/Base/DynamicLibrary.cs:302-310 | an AOT name is rejected exactly when it is present, with `AotLibraryAlreadyRegistered`; otherwise it is appended and nothing else changes |
| Libraries.RegisterAppends | Runtime/Base/DynamicLibrary.cs:285-286 | a success appends one entry, carrying every parsed flag and no source path, to the end of the selected list; nothing else changes |
| Libraries.DuplicatesAcrossContainersAccepted | Runtime/Base/DynamicLibrary.cs:276-283 | a game entry with a module entry's order and name is accepted |
| Libraries.AppendKeepsContainerValid | Runtime/Base/DynamicLibrary.cs:276-286 | appending a correctly classified, non-colliding entry keeps a list classified and duplicate-free |
| Libraries.RegisterPreservesValid | Runtime/Base/DynamicLibrary.cs:249-287 | registration keeps both lists classified and free of duplicate orders and names |
| Libraries.RegisterAotKeepsNamesUnique | Runtime/Base/DynamicLibrary.cs:302-310 | an AOT name is rejected exactly when present, and otherwise appended, keeping the list duplicate-free |
| Libraries.FindByNameSpec | Runtime/Base/DynamicLibrary.cs:209-239 | the lookup is null exactly when no entry has the name, and otherwise returns the first entry that does |
| Libraries.FindByNameAt | Runtime/Base/DynamicLibrary.cs:209-239 | the first entry with the name is the one returned |
| Libraries.FindByNameConcat | Runtime/Base/DynamicLibrary.cs:209-239 | an earlier list is searched completely before a later one |
| Libraries.RegisterThenFind | Runtime/Base/DynamicLibrary.cs:209-287 | after a registration the name is found, and a fresh name finds the new entry |
| Libraries.FilteredNamesStep | Runtime/Base/DynamicLibrary.cs:93-100 | one more entry adds its name exactly when the callback is set and accepts it |
| Libraries.NullCallbackYieldsNothing | Runtime/Base/DynamicLibrary.cs:96 | a null callback yields no names |
| Libraries.FilteredNamesConcat | Runtime/Base/DynamicLibrary.cs:88-123 | filtering a concatenation concatenates the filtered parts |
| Libraries.FilteredNamesMembers | Runtime/Base/DynamicLibrary.cs:88-123 | a name is listed exactly when the callback is set and accepts some entry with that name |
| Libraries.FilteredNamesIsSubsequence | Runtime/Base/DynamicLibrary.cs:88-123 | the listed names keep the order of the entries |
| Libraries.FilteredNamesAreEntryNames | Runtime/Base/DynamicLibrary.cs:88-123 | every listed name is the name of an entry, and there are never more listed names than entries |
| Libraries.AcceptAllListsEveryName | Runtime/Base/DynamicLibrary.cs:88-123 | a callback accepting everything lists every name in order |
| Libraries.PlayableExcludesCore | Runtime/Base/DynamicLibrary.cs:131-159 | every playable name comes from an accepted module or game entry, and that entry does not carry the Core flag |
| Libraries.CoreBitOutsidePack | Runtime/Base/DynamicLibrary.cs:258-270 | a Module- or Game-classified tag set does not contain Core |
| Libraries.PackWithoutCoreBit | Runtime/Base/DynamicLibrary.cs:258 | a pack type without the Core bit means the tag set lacks Core |
| Libraries.LibraryFilePath | Runtime/Base/DynamicLibrary.cs:183-184 | a null library directory is an error; otherwise the path starts with the directory and ends with the file name |
| Libraries.EntranceIsCore | Runtime/Base/DynamicLibrary.cs:54-65 | the external control entrance is the third core library |
| Libraries.ParseTagNames | Runtime/Base/DynamicLibrary.cs:251-256 | the parse loop computes `ParseTags` of the names, stopping at the first unknown one |
| Libraries.HasCollision | Runtime/Base/DynamicLibrary.cs:276-283 | the scan finds a duplicate exactly when some entry shares the order or the name |
| Libraries.DynamicLibrary.constructor | Runtime/Base/DynamicLibrary.cs:70-80 | the module, game and AOT lists start empty |
| Libraries.DynamicLibrary.GetAllAssemblyNames | Runtime/Base/DynamicLibrary.cs:88-123 | the accepted core names, then module names, then game names |
| Libraries.DynamicLibrary.GetAllPlayableAssemblyNames | Runtime/Base/DynamicLibrary.cs:131-159 | the accepted module names, then game names; core libraries are skipped |
| Libraries.DynamicLibrary.GetAllGenericAotNames | Runtime/Base/DynamicLibrary.cs:165-168 | the AOT list, which holds no repeated name |
| Libraries.DynamicLibrary.GetLibraryInfoByAssemblyName | Runtime/Base/DynamicLibrary.cs:209-239 | the first entry with the name in core, module, game order, or null |
| Libraries.DynamicLibrary.GetLibraryFilePathByAssemblyName | Runtime/Base/DynamicLibrary.cs:175-185 | an unknown name is `UnknownAssemblyName` and leaves the path cache alone; otherwise `LibraryFilePath` of the resolved `LinkLibraryPath` root and `<name>.dll`: an error when the root is unset, else the root joined with the file name (the file name alone when the root is empty); the cache changes as in `GetPath` |
| Libraries.DynamicLibrary.GetBinaryLibraryFilePathByAssemblyName | Runtime/Base/DynamicLibrary.cs:192-202 | an unknown name is `UnknownAssemblyName` and leaves the path cache alone; otherwise `LibraryFilePath` of the resolved `LinkLibraryPath` root and `<name>.dll.bytes`: an error when the root is unset, else the root joined with the file name (the file name alone when the root is empty); the cache changes as in `GetPath` |
| Libraries.DynamicLibrary.RegisterLibraryInfo | Runtime/Base/DynamicLibrary.cs:249-287 | the registry moves as `Register` says, or is unchanged on an error; the list invariants hold afterwards |
| Libraries.DynamicLibrary.UnregisterAllLibraryInfos | Runtime/Base/DynamicLibrary.cs:292-296 | module and game lists are emptied; the AOT list is untouched |
| Libraries.DynamicLibrary.RegisterAotLibraryName | Runtime/Base/DynamicLibrary.cs:302-310 | a new name is appended; a present name is an error and changes nothing |
| Libraries.DynamicLibrary.UnregisterAllAotLibraryNames | Runtime/Base/DynamicLibrary.cs:315-318 | the AOT list is emptied; the library lists are untouched |
| LegacyLibraries.ListedStep | Runtime/Common/DynamicLibrary.cs:83-100 | one more entry adds its name exactly when it is shown (and, for reloadable names, reloadable) |
| LegacyLibraries.GetAllAssemblyNames | Runtime/Common/DynamicLibrary.cs:78-103 | the shown core names, then the shown game names |
| LegacyLibraries.GetAllReloadableAssemblyNames | Runtime/Common/DynamicLibrary.cs:111-130 | the shown, reloadable game names; core libraries are skipped |
| LegacyLibraries.ListedMembers | Runtime/Common/DynamicLibrary.cs:78-103 | a name is listed exactly when some entry with it is shown |
| LegacyLibraries.TutorialListsEverything | Runtime/Common/DynamicLibrary.cs:78-103 | with tutorials on, every entry is listed |
| LegacyLibraries.ReloadableWithinListed | Runtime/Common/DynamicLibrary.cs:111-130 | the reloadable names are an order-preserving sub-list of the listed names |
| LegacyLibraries.ReloadableNamesAreListed | Runtime/Common/DynamicLibrary.cs:111-130 | every reloadable name is also listed by `GetAllAssemblyNames`, and there are never more of them |
| LegacyLibraries.ListedIsSubsequence | Runtime/Common/DynamicLibrary.cs:78-103 | the listed names keep the order of the entries |
| LegacyLibraries.CoreListed | Runtime/Common/DynamicLibrary.cs:53-60 | the four non-tutorial core names, plus `Nova.Sample` when tutorials are on |
| LegacyLibraries.GameListed | Runtime/Common/DynamicLibrary.cs:65-70 | all three game names, whatever the tutorial state |
| LegacyLibraries.AllNamesWithoutTutorial | Runtime/Common/DynamicLibrary.cs:53-103 | without tutorials, seven names, `Nova.Sample` left out |
| LegacyLibraries.AllNamesWithTutorial | Runtime/Common/DynamicLibrary.cs:53-103 | with tutorials, all eight names, core first |
| LegacyLibraries.OnlyHotfixReloads | Runtime/Common/DynamicLibrary.cs:65-130 | the reloadable list is exactly `GameHotfix` |
| LegacyLibraries.ReloadableExcludesCore | Runtime/Common/DynamicLibrary.cs:115-116 | no reloadable name is a core library's name |
| LegacyLibraries.EntranceAlwaysListed | Runtime/Common/DynamicLibrary.cs:48-60 | the external control entrance is listed whatever the tutorial state |
| Sequences.SubsequenceMembers | Runtime/Base/DynamicLibrary.cs:88-123 | a sub-list is no longer than its list and its elements come from it; used to derive that listed names are entry names |

## Left out

- `Enum.Parse` is modelled on the exact member names only. Case variants, surrounding blanks,
  numeric strings and comma lists are not modelled, and a null name is not modelled.
- `Path.Combine` is reduced to joining with `/` unless the root already ends in a separator.
  Rooted right-hand parts, invalid path characters and platform separators are not modelled.
- `Char.IsUpper` and `String.ToUpper` are restricted to ASCII letters; culture-specific casing is not modelled.
- Paths.ConvertPathTypeToName: requires a member name whose length is not 1. The source reads
  `memberName[1]` before it checks the length, and throws for such a name. The only member the
  modelled code passes is `LinkLibraryPath` (Runtime/Base/DynamicLibrary.cs:183, :200), which has 15 characters.
- Paths.EnvironmentPath.GetPath: inherits that requirement on the path type's member name.
- Paths.EnvironmentPath.GetFilePath: inherits that requirement on the path type's member name.
- `ResourcePathType` is declared outside the modelled files. Here it is a value holding its member name, with `LinkLibraryPath` the member the registry uses.
- The `Singleton` lifecycle and `OnInitialize`, which loads `EnvironmentConfigures` only in the
  Unity editor when it is not playing, are outside this model. `OnCleanup` and
  `AutoloadConfigurationVariableObjects` are modelled.
- `Logger.Warn` is modelled as a ghost log of the warned keys; its message text and output are not part of this model.
- Variables.EnvironmentVariables.SetValues: states the order of warnings only as a set of distinct
  keys. C# dictionary enumeration order is unspecified, so the model picks pairs in any order.
- Null keys and values are not modelled: Dafny strings cannot be null, and the dictionary would throw on a null key.
- Libraries.DynamicLibrary.GetAllGenericAotNames: returns the list's value. The source returns the
  live `IList`, through which a caller could alter the registry; that aliasing is not modelled.
- `LibraryInfo.source_path` is never set by the modelled code, so every entry's is `None`; how it would be derived is not part of this model.
- Default arguments are not modelled: `callback = null` (Runtime/Base/DynamicLibrary.cs:88, :131) and
  `tutorial = false` (Runtime/Common/DynamicLibrary.cs:78, :111) are explicit parameters, so a
  caller passes `None` or `false` itself.
- Concurrency is not modelled. The static lists are unsynchronised in the source.
- `UserSettings`, `ConfiguresExport`, `EnvironmentConfigures` and `Logger` are the editor, export
  and logging code around the core; they are not part of this model.

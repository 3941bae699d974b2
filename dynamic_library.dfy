/**
 * The tagged library registry of `Runtime/Base/DynamicLibrary.cs`: a fixed core list, a module
 * list and a game list filled by registration, and a list of AOT metadata library names.
 */
module Libraries {
  import opened Wrappers
  import opened Tags
  import opened Descriptors
  import opened Sequences
  import Paths

  const NovaLibraryName: string := "Nova.Library"
  const NovaEngineName: string := "Nova.Engine"
  const NovaBasicName: string := "Nova.Basic"
  const NovaImportName: string := "Nova.Import"

  /** The external control entrance, a fixed setting. */
  const ExternalControlEntranceName: string := NovaBasicName

  /** `_coreLibraries`: loaded at startup, never registered or cleared. */
  const CoreLibraries: seq<LibraryInfo> := [
    LibraryInfo(1, NovaLibraryName, None, Core),
    LibraryInfo(2, NovaEngineName, None, Core),
    LibraryInfo(3, NovaBasicName, None, Core),
    LibraryInfo(4, NovaImportName, None, Core)
  ]

  /** The exceptions the registry throws. */
  datatype Error =
    | CannotRegisterCore           // "Cannot register core library."
    | InvalidLibraryTag            // "Invalid library tag."
    | LibraryAlreadyRegistered     // "Library name is already registered." (order or name)
    | AotLibraryAlreadyRegistered  // "AOT library name is already registered."
    | UnknownTagName(tag: string)  // thrown by Enum.Parse
    | UnknownAssemblyName(assemblyName: string)  // FileNotFoundException
    | NullLibraryPath              // Path.Combine given a null directory

  /** `LibraryInfoConditionalFilteringCallback`; `None` is a null delegate. */
  type FilteringCallback = LibraryInfo -> bool

  /** The registry's mutable lists; the core list is the constant above. */
  datatype RegistryState = RegistryState(modules: seq<LibraryInfo>, games: seq<LibraryInfo>, aots: seq<string>)

  datatype Container = ModuleContainer | GameContainer

  // ----- invariants -----

  predicate NoDuplicates<T(==)>(xs: seq<T>)
  {
    forall i, j :: 0 <= i < j < |xs| ==> xs[i] != xs[j]
  }

  /** Every entry is classified as `pack`, carries no source path, and orders and names are unique. */
  predicate ContainerValid(libs: seq<LibraryInfo>, pack: LibraryTag)
  {
    && (forall i :: 0 <= i < |libs| ==> PackType(libs[i].tags) == pack && libs[i].sourcePath.None?)
    && (forall i, j :: 0 <= i < j < |libs| ==> libs[i].order != libs[j].order && libs[i].name != libs[j].name)
  }

  predicate StateValid(s: RegistryState)
  {
    ContainerValid(s.modules, Module) && ContainerValid(s.games, Game) && NoDuplicates(s.aots)
  }

  /** Core, then module, then game: the order of lookup and of enumeration. */
  function AllLibraries(s: RegistryState): seq<LibraryInfo>
  {
    CoreLibraries + s.modules + s.games
  }

  // ----- registration -----

  /** The `switch` on the low nibble of the tags: only exactly Module or exactly Game select a container. */
  function Classify(tag: LibraryTag): (r: Result<Container, Error>)
    ensures r == Ok(ModuleContainer) <==> PackType(tag) == Module
    ensures r == Ok(GameContainer) <==> PackType(tag) == Game
    ensures r == Err(CannotRegisterCore) <==> PackType(tag) == Core
    ensures r.Err? ==> r.error == CannotRegisterCore || r.error == InvalidLibraryTag
  {
    var pack := PackType(tag);
    if pack == Core then Err(CannotRegisterCore)
    else if pack == Module then Ok(ModuleContainer)
    else if pack == Game then Ok(GameContainer)
    else Err(InvalidLibraryTag)
  }

  function Selected(s: RegistryState, c: Container): seq<LibraryInfo>
  {
    if c == ModuleContainer then s.modules else s.games
  }

  /** Some entry of `libs` has order `order` or name `name`. */
  predicate Collides(libs: seq<LibraryInfo>, order: int, name: string)
  {
    exists i :: 0 <= i < |libs| && (libs[i].order == order || libs[i].name == name)
  }

  /** A null tag list is treated like an empty one. */
  function TagNames(tags: Option<seq<string>>): seq<string>
  {
    if tags.Some? then tags.value else []
  }

  /** `RegisterLibraryInfo` on the abstract state. */
  function Register(s: RegistryState, order: int, name: string, tags: Option<seq<string>>): (r: Result<RegistryState, Error>)
    ensures r.Ok? ==> r.value.aots == s.aots && |r.value.modules| + |r.value.games| == |s.modules| + |s.games| + 1
    ensures r.Ok? ==> (r.value.modules == s.modules) != (r.value.games == s.games)
    ensures r.Err? ==> r.error != AotLibraryAlreadyRegistered && !r.error.UnknownAssemblyName? && r.error != NullLibraryPath
  {
    match ParseTags(TagNames(tags))
    case Err(bad) => Err(UnknownTagName(bad))
    case Ok(tag) =>
      match Classify(tag)
      case Err(e) => Err(e)
      case Ok(c) =>
        if Collides(Selected(s, c), order, name) then Err(LibraryAlreadyRegistered)
        else
          var info := LibraryInfo(order, name, None, tag);
          if c == ModuleContainer then Ok(s.(modules := s.modules + [info]))
          else Ok(s.(games := s.games + [info]))
  }

  /** `RegisterAotLibraryName` on the abstract state. */
  function RegisterAot(s: RegistryState, name: string): (r: Result<RegistryState, Error>)
    ensures r.Err? <==> name in s.aots
    ensures r.Err? ==> r.error == AotLibraryAlreadyRegistered
    ensures r.Ok? ==> r.value == s.(aots := s.aots + [name]) && name in r.value.aots
  {
    if name in s.aots then Err(AotLibraryAlreadyRegistered) else Ok(s.(aots := s.aots + [name]))
  }

  /** A null or empty tag list classifies as nothing and is rejected. */
  lemma RegisterWithoutTagsFails(s: RegistryState, order: int, name: string, tags: Option<seq<string>>)
    requires tags.None? || tags.value == []
    ensures Register(s, order, name, tags) == Err(InvalidLibraryTag)
  {
  }

  /**
   * The classification the tag names select: exactly Core is "Cannot register core", exactly
   * Module or exactly Game picks that list, and anything else (none, Module|Game, ...) is invalid.
   */
  lemma RegisterClassification(s: RegistryState, order: int, name: string, tags: Option<seq<string>>)
    requires ParseTags(TagNames(tags)).Ok?
    ensures var pack := PackType(ParseTags(TagNames(tags)).value);
            && (pack == Core ==> Register(s, order, name, tags) == Err(CannotRegisterCore))
            && (pack != Core && pack != Module && pack != Game ==> Register(s, order, name, tags) == Err(InvalidLibraryTag))
            && (pack == Module ==> Register(s, order, name, tags).Ok? ==> Register(s, order, name, tags).value.games == s.games)
            && (pack == Game ==> Register(s, order, name, tags).Ok? ==> Register(s, order, name, tags).value.modules == s.modules)
  {
  }

  /** Both Module and Game given: ambiguous, rejected. */
  lemma ModuleAndGameIsInvalid(s: RegistryState, order: int, name: string)
    ensures Register(s, order, name, Some(["Module", "Game"])) == Err(InvalidLibraryTag)
  {
    assert ["Module", "Game"][..1] == ["Module"];
    assert ["Module"][..0] == [];
    assert ParseTags(["Module"]) == Ok(Module);
    assert ParseTags(["Module", "Game"]) == Ok(Module | Game);
    assert PackType(Module | Game) == 0x06;
  }

  /**
   * Registration succeeds exactly when the names parse, the classification is Module or Game,
   * and the selected list holds no entry with the same order or name.
   */
  lemma RegisterSucceedsIff(s: RegistryState, order: int, name: string, tags: Option<seq<string>>)
    ensures Register(s, order, name, tags).Ok? <==>
              && ParseTags(TagNames(tags)).Ok?
              && Classify(ParseTags(TagNames(tags)).value).Ok?
              && !Collides(Selected(s, Classify(ParseTags(TagNames(tags)).value).value), order, name)
    ensures ParseTags(TagNames(tags)).Err? ==>
              Register(s, order, name, tags) == Err(UnknownTagName(ParseTags(TagNames(tags)).error))
    ensures && ParseTags(TagNames(tags)).Ok?
            && Classify(ParseTags(TagNames(tags)).value).Ok?
            && Collides(Selected(s, Classify(ParseTags(TagNames(tags)).value).value), order, name) ==>
              Register(s, order, name, tags) == Err(LibraryAlreadyRegistered)
  {
  }

  /**
   * A success appends one entry with the full parsed tag set to the end of the selected list;
   * the other list and the AOT list are unchanged.
   */
  lemma RegisterAppends(s: RegistryState, order: int, name: string, tags: Option<seq<string>>)
    requires Register(s, order, name, tags).Ok?
    ensures var tag := ParseTags(TagNames(tags)).value;
            var info := LibraryInfo(order, name, None, tag);
            var next := Register(s, order, name, tags).value;
            && next.aots == s.aots
            && (PackType(tag) == Module ==> next.modules == s.modules + [info] && next.games == s.games)
            && (PackType(tag) == Game ==> next.games == s.games + [info] && next.modules == s.modules)
            && (PackType(tag) == Module || PackType(tag) == Game)
  {
  }

  /** Only the selected list is searched for duplicates: a game may reuse a module's name and order. */
  lemma DuplicatesAcrossContainersAccepted()
    ensures var s := RegistryState([LibraryInfo(1, "Shared", None, Module)], [], []);
            Register(s, 1, "Shared", Some(["Game"])).Ok?
  {
    var s := RegistryState([LibraryInfo(1, "Shared", None, Module)], [], []);
    assert ["Game"][..0] == [];
    assert !Collides(s.games, 1, "Shared");
  }

  lemma AppendKeepsContainerValid(libs: seq<LibraryInfo>, pack: LibraryTag, info: LibraryInfo)
    requires ContainerValid(libs, pack)
    requires PackType(info.tags) == pack && info.sourcePath.None?
    requires !Collides(libs, info.order, info.name)
    ensures ContainerValid(libs + [info], pack)
  {
    var next := libs + [info];
    forall i, j | 0 <= i < j < |next|
      ensures next[i].order != next[j].order && next[i].name != next[j].name
    {
      if j == |libs| {
        assert next[i] == libs[i];
      }
    }
  }

  /** Registration keeps every list classified, duplicate-free and without source paths. */
  lemma RegisterPreservesValid(s: RegistryState, order: int, name: string, tags: Option<seq<string>>)
    requires StateValid(s) && Register(s, order, name, tags).Ok?
    ensures StateValid(Register(s, order, name, tags).value)
  {
    var tag := ParseTags(TagNames(tags)).value;
    var info := LibraryInfo(order, name, None, tag);
    if PackType(tag) == Module {
      AppendKeepsContainerValid(s.modules, Module, info);
    } else {
      AppendKeepsContainerValid(s.games, Game, info);
    }
  }

  /** An AOT name is rejected when present and appended otherwise, so the list never holds duplicates. */
  lemma RegisterAotKeepsNamesUnique(s: RegistryState, name: string)
    requires NoDuplicates(s.aots)
    ensures RegisterAot(s, name).Err? <==> name in s.aots
    ensures RegisterAot(s, name).Ok? ==>
              && RegisterAot(s, name).value.aots == s.aots + [name]
              && NoDuplicates(RegisterAot(s, name).value.aots)
              && RegisterAot(s, name).value.modules == s.modules
              && RegisterAot(s, name).value.games == s.games
  {
  }

  // ----- lookup -----

  /** `GetLibraryInfoByAssemblyName` on a list: the first entry with that name. */
  function FindByName(libs: seq<LibraryInfo>, name: string): Option<LibraryInfo>
  {
    if libs == [] then None
    else if libs[0].name == name then Some(libs[0])
    else FindByName(libs[1..], name)
  }

  /** The lookup fails exactly when no entry has the name, and otherwise finds the first one that does. */
  lemma {:induction false} FindByNameSpec(libs: seq<LibraryInfo>, name: string)
    ensures FindByName(libs, name).None? <==> forall i :: 0 <= i < |libs| ==> libs[i].name != name
    ensures FindByName(libs, name).Some? ==>
              exists i :: 0 <= i < |libs| && libs[i] == FindByName(libs, name).value && libs[i].name == name
                          && forall j :: 0 <= j < i ==> libs[j].name != name
  {
    if libs != [] && libs[0].name != name {
      FindByNameSpec(libs[1..], name);
      if FindByName(libs, name).Some? {
        var i :| 0 < i + 1 <= |libs[1..]| && libs[1..][i] == FindByName(libs, name).value && libs[1..][i].name == name
                 && forall j :: 0 <= j < i ==> libs[1..][j].name != name;
        assert libs[i + 1] == FindByName(libs, name).value;
        assert forall j :: 0 <= j < i + 1 ==> libs[j].name != name by {
          forall j | 0 <= j < i + 1 ensures libs[j].name != name {
            if j > 0 {
              assert libs[j] == libs[1..][j - 1];
            }
          }
        }
      } else {
        forall i | 0 <= i < |libs| ensures libs[i].name != name {
          if i > 0 {
            assert libs[i] == libs[1..][i - 1];
          }
        }
      }
    }
  }

  /** The entry at `i` is the first with the name, so the lookup returns it. */
  lemma {:induction false} FindByNameAt(libs: seq<LibraryInfo>, name: string, i: nat)
    requires i < |libs| && libs[i].name == name
    requires forall j :: 0 <= j < i ==> libs[j].name != name
    ensures FindByName(libs, name) == Some(libs[i])
  {
    if i > 0 {
      FindByNameAt(libs[1..], name, i - 1);
    }
  }

  /** Searching a concatenation searches the first part before the second. */
  lemma {:induction false} FindByNameConcat(a: seq<LibraryInfo>, b: seq<LibraryInfo>, name: string)
    ensures FindByName(a + b, name) == if FindByName(a, name).Some? then FindByName(a, name) else FindByName(b, name)
  {
    if a == [] {
      assert a + b == b;
    } else {
      assert (a + b)[0] == a[0];
      assert (a + b)[1..] == a[1..] + b;
      FindByNameConcat(a[1..], b, name);
    }
  }

  /**
   * After a registration the name is found; when no entry had that name before, the lookup
   * returns the new entry. (An earlier core or module entry with the same name shadows it.)
   */
  lemma RegisterThenFind(s: RegistryState, order: int, name: string, tags: Option<seq<string>>)
    requires Register(s, order, name, tags).Ok?
    ensures var found := FindByName(AllLibraries(Register(s, order, name, tags).value), name);
            found.Some? && found.value.name == name
    ensures FindByName(AllLibraries(s), name).None? ==>
              FindByName(AllLibraries(Register(s, order, name, tags).value), name)
                == Some(LibraryInfo(order, name, None, ParseTags(TagNames(tags)).value))
  {
    var next := Register(s, order, name, tags).value;
    var info := LibraryInfo(order, name, None, ParseTags(TagNames(tags)).value);
    var all := AllLibraries(next);
    FindByNameSpec(AllLibraries(s), name);
    FindByNameSpec(all, name);
    var k := if next.modules != s.modules then |CoreLibraries| + |s.modules| else |all| - 1;
    assert all[k] == info;
    if FindByName(AllLibraries(s), name).None? {
      forall j | 0 <= j < k ensures all[j].name != name {
        assert all[j] == AllLibraries(s)[j];
      }
      FindByNameAt(all, name, k);
    }
  }

  // ----- enumeration -----

  /** The names of the entries the callback accepts, in list order; a null callback accepts none. */
  function FilteredNames(libs: seq<LibraryInfo>, callback: Option<FilteringCallback>): seq<string>
  {
    if libs == [] then []
    else
      var last := libs[|libs| - 1];
      FilteredNames(libs[..|libs| - 1], callback) + (if callback.Some? && callback.value(last) then [last.name] else [])
  }

  /** The names of all entries, in list order. */
  function Names(libs: seq<LibraryInfo>): seq<string>
  {
    if libs == [] then [] else Names(libs[..|libs| - 1]) + [libs[|libs| - 1].name]
  }

  lemma FilteredNamesStep(libs: seq<LibraryInfo>, n: nat, callback: Option<FilteringCallback>)
    requires n < |libs|
    ensures FilteredNames(libs[..n + 1], callback) ==
              FilteredNames(libs[..n], callback) + (if callback.Some? && callback.value(libs[n]) then [libs[n].name] else [])
  {
    assert libs[..n + 1][..n] == libs[..n];
  }

  /** As written at line 96, a null callback skips every entry. */
  lemma {:induction false} NullCallbackYieldsNothing(libs: seq<LibraryInfo>)
    ensures FilteredNames(libs, None) == []
  {
    if libs != [] {
      NullCallbackYieldsNothing(libs[..|libs| - 1]);
    }
  }

  lemma {:induction false} FilteredNamesConcat(a: seq<LibraryInfo>, b: seq<LibraryInfo>, callback: Option<FilteringCallback>)
    ensures FilteredNames(a + b, callback) == FilteredNames(a, callback) + FilteredNames(b, callback)
    decreases |b|
  {
    if b == [] {
      assert a + b == a;
    } else {
      var init := b[..|b| - 1];
      assert (a + b)[..|a + b| - 1] == a + init;
      assert (a + b)[|a + b| - 1] == b[|b| - 1];
      FilteredNamesConcat(a, init, callback);
    }
  }

  /** A name is listed exactly when some entry with that name is accepted by a non-null callback. */
  lemma {:induction false} FilteredNamesMembers(libs: seq<LibraryInfo>, callback: Option<FilteringCallback>, name: string)
    ensures name in FilteredNames(libs, callback) <==>
              callback.Some? && exists i :: 0 <= i < |libs| && libs[i].name == name && callback.value(libs[i])
  {
    if libs != [] {
      var init := libs[..|libs| - 1];
      FilteredNamesMembers(init, callback, name);
      assert forall i :: 0 <= i < |init| ==> init[i] == libs[i];
      if callback.Some? && (exists i :: 0 <= i < |libs| && libs[i].name == name && callback.value(libs[i])) {
        var i :| 0 <= i < |libs| && libs[i].name == name && callback.value(libs[i]);
        if i < |init| {
          assert init[i].name == name && callback.value(init[i]);
        }
      }
    }
  }

  /** The listed names keep the order of the entries they come from. */
  lemma {:induction false} FilteredNamesIsSubsequence(libs: seq<LibraryInfo>, callback: Option<FilteringCallback>)
    ensures IsSubsequence(FilteredNames(libs, callback), Names(libs))
  {
    if libs != [] {
      var init := libs[..|libs| - 1];
      FilteredNamesIsSubsequence(init, callback);
      var f := FilteredNames(init, callback);
      var last := libs[|libs| - 1];
      var ns := Names(init) + [last.name];
      assert ns[..|ns| - 1] == Names(init);
      assert Names(libs) == ns;
      if callback.Some? && callback.value(last) {
        var a := f + [last.name];
        assert a[..|a| - 1] == f;
        assert IsSubsequence(a, ns);
      } else {
        assert FilteredNames(libs, callback) == f + [] == f;
        assert IsSubsequence(f, ns);
      }
    }
  }

  /** Every listed name is the name of some entry, and there are never more names than entries. */
  lemma FilteredNamesAreEntryNames(libs: seq<LibraryInfo>, callback: Option<FilteringCallback>)
    ensures |FilteredNames(libs, callback)| <= |Names(libs)|
    ensures forall n :: n in FilteredNames(libs, callback) ==> n in Names(libs)
  {
    FilteredNamesIsSubsequence(libs, callback);
    SubsequenceMembers(FilteredNames(libs, callback), Names(libs));
  }

  /** With an accept-all callback, every name is listed, core first, then modules, then games. */
  lemma {:induction false} AcceptAllListsEveryName(libs: seq<LibraryInfo>)
    ensures FilteredNames(libs, Some((info: LibraryInfo) => true)) == Names(libs)
  {
    if libs != [] {
      AcceptAllListsEveryName(libs[..|libs| - 1]);
    }
  }

  /**
   * The playable list never holds a core entry: each of its names comes from a module or game
   * entry the callback accepted, and such an entry does not carry the Core flag.
   */
  lemma PlayableExcludesCore(s: RegistryState, callback: Option<FilteringCallback>, name: string)
    requires StateValid(s)
    requires name in FilteredNames(s.modules, callback) + FilteredNames(s.games, callback)
    ensures exists i :: 0 <= i < |s.modules + s.games| && (s.modules + s.games)[i].name == name
                        && callback.Some? && callback.value((s.modules + s.games)[i])
                        && !(s.modules + s.games)[i].IsContainsTag(Core)
  {
    var libs := s.modules + s.games;
    FilteredNamesConcat(s.modules, s.games, callback);
    FilteredNamesMembers(libs, callback, name);
    var i :| 0 <= i < |libs| && libs[i].name == name && callback.value(libs[i]);
    if i < |s.modules| {
      assert libs[i] == s.modules[i];
      assert PackType(libs[i].tags) == Module;
    } else {
      assert libs[i] == s.games[i - |s.modules|];
      assert PackType(libs[i].tags) == Game;
    }
    CoreBitOutsidePack(libs[i].tags);
  }

  lemma CoreBitOutsidePack(tags: LibraryTag)
    requires PackType(tags) == Module || PackType(tags) == Game
    ensures !ContainsAll(tags, Core)
  {
    if PackType(tags) == Module {
      PackWithoutCoreBit(tags, Module);
    } else {
      PackWithoutCoreBit(tags, Game);
    }
  }

  lemma PackWithoutCoreBit(tags: LibraryTag, pack: LibraryTag)
    requires PackType(tags) == pack && pack & Core == 0
    ensures !ContainsAll(tags, Core)
  {
    assert tags & Core == (tags & PackTypeMask) & Core;
  }

  // ----- file paths -----

  /** `Path.Combine(library_dir, file)`, which throws when the directory is null. */
  function LibraryFilePath(libraryDir: Option<string>, file: string): (r: Result<string, Error>)
    ensures libraryDir.None? <==> r == Err(NullLibraryPath)
    ensures libraryDir.Some? ==> r.Ok? && |r.value| >= |libraryDir.value| + |file|
                                 && r.value[..|libraryDir.value|] == libraryDir.value
                                 && r.value[|r.value| - |file|..] == file
  {
    if libraryDir.None? then Err(NullLibraryPath) else Ok(Paths.Combine(libraryDir.value, file))
  }

  /** `ExternalControlEntranceName` is one of the core libraries. */
  lemma EntranceIsCore()
    ensures FindByName(CoreLibraries, ExternalControlEntranceName) == Some(CoreLibraries[2])
  {
    FindByNameAt(CoreLibraries, ExternalControlEntranceName, 2);
  }

  /** The `Enum.Parse` loop of `RegisterLibraryInfo`: OR the flags together, stopping at the first unknown name. */
  method ParseTagNames(names: seq<string>) returns (r: Result<LibraryTag, string>)
    ensures r == ParseTags(names)
  {
    var tag := Unknown;
    var n := 0;
    while n < |names|
      invariant 0 <= n <= |names|
      invariant ParseTags(names[..n]) == Ok(tag)
    {
      var flag := ParseTag(names[n]);
      if flag.None? {
        ParseTagsStopsAt(names, n);
        return Err(names[n]);
      }
      ParseTagsStep(names, n);
      tag := tag | flag.value;
      n := n + 1;
    }
    assert names[..n] == names;
    return Ok(tag);
  }

  /** The duplicate scan of `RegisterLibraryInfo` over the selected list. */
  method HasCollision(container: seq<LibraryInfo>, order: int, name: string) returns (found: bool)
    ensures found <==> Collides(container, order, name)
  {
    var n := 0;
    while n < |container|
      invariant 0 <= n <= |container|
      invariant forall j :: 0 <= j < n ==> container[j].order != order && container[j].name != name
    {
      var other := container[n];
      if other.order == order || other.name == name {
        return true;
      }
      n := n + 1;
    }
    return false;
  }

  /** The static class's lists, held by one registry object. */
  class DynamicLibrary {
    var modules: seq<LibraryInfo>
    var games: seq<LibraryInfo>
    var aots: seq<string>

    function State(): RegistryState
      reads this
    {
      RegistryState(modules, games, aots)
    }

    predicate Valid()
      reads this
    {
      StateValid(State())
    }

    constructor ()
      ensures Valid() && modules == [] && games == [] && aots == []
    {
      modules, games, aots := [], [], [];
    }

    /** Core, module and game names the callback accepts, in that order; a null callback gives none. */
    method GetAllAssemblyNames(callback: Option<FilteringCallback>) returns (assemblyNames: seq<string>)
      ensures assemblyNames == FilteredNames(CoreLibraries, callback) + FilteredNames(modules, callback)
                               + FilteredNames(games, callback)
    {
      assemblyNames := [];
      var n := 0;
      while n < |CoreLibraries|
        invariant 0 <= n <= |CoreLibraries|
        invariant assemblyNames == FilteredNames(CoreLibraries[..n], callback)
      {
        var info := CoreLibraries[n];
        FilteredNamesStep(CoreLibraries, n, callback);
        n := n + 1;
        if callback.None? || !callback.value(info) {
          continue;
        }
        assemblyNames := assemblyNames + [info.name];
      }
      assert CoreLibraries[..n] == CoreLibraries;
      ghost var core := assemblyNames;
      n := 0;
      while n < |modules|
        invariant 0 <= n <= |modules|
        invariant assemblyNames == core + FilteredNames(modules[..n], callback)
      {
        var info := modules[n];
        FilteredNamesStep(modules, n, callback);
        n := n + 1;
        if callback.None? || !callback.value(info) {
          continue;
        }
        assemblyNames := assemblyNames + [info.name];
      }
      assert modules[..n] == modules;
      ghost var coreAndModules := assemblyNames;
      n := 0;
      while n < |games|
        invariant 0 <= n <= |games|
        invariant assemblyNames == coreAndModules + FilteredNames(games[..n], callback)
      {
        var info := games[n];
        FilteredNamesStep(games, n, callback);
        n := n + 1;
        if callback.None? || !callback.value(info) {
          continue;
        }
        assemblyNames := assemblyNames + [info.name];
      }
      assert games[..n] == games;
    }

    /** Module then game names the callback accepts: the core list is skipped. */
    method GetAllPlayableAssemblyNames(callback: Option<FilteringCallback>) returns (assemblyNames: seq<string>)
      ensures assemblyNames == FilteredNames(modules, callback) + FilteredNames(games, callback)
    {
      assemblyNames := [];
      var n := 0;
      while n < |modules|
        invariant 0 <= n <= |modules|
        invariant assemblyNames == FilteredNames(modules[..n], callback)
      {
        var info := modules[n];
        FilteredNamesStep(modules, n, callback);
        n := n + 1;
        if callback.None? || !callback.value(info) {
          continue;
        }
        assemblyNames := assemblyNames + [info.name];
      }
      assert modules[..n] == modules;
      ghost var fromModules := assemblyNames;
      n := 0;
      while n < |games|
        invariant 0 <= n <= |games|
        invariant assemblyNames == fromModules + FilteredNames(games[..n], callback)
      {
        var info := games[n];
        FilteredNamesStep(games, n, callback);
        n := n + 1;
        if callback.None? || !callback.value(info) {
          continue;
        }
        assemblyNames := assemblyNames + [info.name];
      }
      assert games[..n] == games;
    }

    /** The AOT names, in registration order; never with a repeated name. */
    function GetAllGenericAotNames(): (names: seq<string>)
      reads this
      requires Valid()
      ensures names == aots && NoDuplicates(names)
    {
      aots
    }

    /** The first entry named `assemblyName` in core, then module, then game order; `None` (null) if none. */
    method GetLibraryInfoByAssemblyName(assemblyName: string) returns (info: Option<LibraryInfo>)
      ensures info == FindByName(AllLibraries(State()), assemblyName)
    {
      var all := AllLibraries(State());
      var n := 0;
      while n < |CoreLibraries|
        invariant 0 <= n <= |CoreLibraries|
        invariant forall j :: 0 <= j < n ==> all[j].name != assemblyName
      {
        if assemblyName == CoreLibraries[n].name {
          FindByNameAt(all, assemblyName, n);
          return Some(CoreLibraries[n]);
        }
        n := n + 1;
      }
      n := 0;
      while n < |modules|
        invariant 0 <= n <= |modules|
        invariant forall j :: 0 <= j < |CoreLibraries| + n ==> all[j].name != assemblyName
      {
        assert all[|CoreLibraries| + n] == modules[n];
        if assemblyName == modules[n].name {
          FindByNameAt(all, assemblyName, |CoreLibraries| + n);
          return Some(modules[n]);
        }
        n := n + 1;
      }
      n := 0;
      while n < |games|
        invariant 0 <= n <= |games|
        invariant forall j :: 0 <= j < |CoreLibraries| + |modules| + n ==> all[j].name != assemblyName
      {
        assert all[|CoreLibraries| + |modules| + n] == games[n];
        if assemblyName == games[n].name {
          FindByNameAt(all, assemblyName, |CoreLibraries| + |modules| + n);
          return Some(games[n]);
        }
        n := n + 1;
      }
      FindByNameSpec(all, assemblyName);
      return None;
    }

    /** `<library dir>/<name>.dll`; an unknown name is a FileNotFoundException. */
    method GetLibraryFilePathByAssemblyName(assemblyName: string, paths: Paths.EnvironmentPath)
      returns (r: Result<string, Error>)
      requires paths.Valid()
      modifies paths
      ensures paths.Valid()
      ensures FindByName(AllLibraries(State()), assemblyName).None? ==>
                r == Err(UnknownAssemblyName(assemblyName)) && paths.cachePaths == old(paths.cachePaths)
      ensures FindByName(AllLibraries(State()), assemblyName).Some? ==>
                && r == LibraryFilePath(paths.Resolve(old(paths.cachePaths), Paths.LinkLibraryPath), assemblyName + ".dll")
                && paths.cachePaths == paths.CacheAfter(old(paths.cachePaths), Paths.LinkLibraryPath)
    {
      var info := GetLibraryInfoByAssemblyName(assemblyName);
      if info.None? {
        return Err(UnknownAssemblyName(assemblyName));
      }
      var libraryDir := paths.GetPath(Paths.LinkLibraryPath);
      if libraryDir.None? {
        return Err(NullLibraryPath);
      }
      r := Ok(Paths.Combine(libraryDir.value, assemblyName + ".dll"));
    }

    /** `<library dir>/<name>.dll.bytes`; an unknown name is a FileNotFoundException. */
    method GetBinaryLibraryFilePathByAssemblyName(assemblyName: string, paths: Paths.EnvironmentPath)
      returns (r: Result<string, Error>)
      requires paths.Valid()
      modifies paths
      ensures paths.Valid()
      ensures FindByName(AllLibraries(State()), assemblyName).None? ==>
                r == Err(UnknownAssemblyName(assemblyName)) && paths.cachePaths == old(paths.cachePaths)
      ensures FindByName(AllLibraries(State()), assemblyName).Some? ==>
                && r == LibraryFilePath(paths.Resolve(old(paths.cachePaths), Paths.LinkLibraryPath), assemblyName + ".dll.bytes")
                && paths.cachePaths == paths.CacheAfter(old(paths.cachePaths), Paths.LinkLibraryPath)
    {
      var info := GetLibraryInfoByAssemblyName(assemblyName);
      if info.None? {
        return Err(UnknownAssemblyName(assemblyName));
      }
      var libraryDir := paths.GetPath(Paths.LinkLibraryPath);
      if libraryDir.None? {
        return Err(NullLibraryPath);
      }
      r := Ok(Paths.Combine(libraryDir.value, assemblyName + ".dll.bytes"));
    }

    /** `RegisterLibraryInfo`: the state moves as `Register` says, or stays as it was on an error. */
    method RegisterLibraryInfo(order: int, name: string, tags: Option<seq<string>>) returns (r: Outcome<Error>)
      requires Valid()
      modifies this
      ensures Valid()
      ensures Register(old(State()), order, name, tags).Ok? ==>
                r == Pass && State() == Register(old(State()), order, name, tags).value
      ensures Register(old(State()), order, name, tags).Err? ==>
                r == Fail(Register(old(State()), order, name, tags).error) && State() == old(State())
    {
      var parsed := ParseTagNames(TagNames(tags));
      if parsed.Err? {
        return Fail(UnknownTagName(parsed.error));
      }
      var tag := parsed.value;
      var pack := tag & PackTypeMask;
      var container: seq<LibraryInfo>;
      var isModule: bool;
      if pack == Core {
        return Fail(CannotRegisterCore);
      } else if pack == Module {
        container, isModule := modules, true;
      } else if pack == Game {
        container, isModule := games, false;
      } else {
        return Fail(InvalidLibraryTag);
      }
      var duplicate := HasCollision(container, order, name);
      if duplicate {
        return Fail(LibraryAlreadyRegistered);
      }
      var info := LibraryInfo(order, name, None, tag);
      RegisterPreservesValid(State(), order, name, tags);
      if isModule {
        modules := modules + [info];
      } else {
        games := games + [info];
      }
      r := Pass;
    }

    /** Empties the module and game lists; the core list and the AOT names are untouched. */
    method UnregisterAllLibraryInfos()
      requires Valid()
      modifies this
      ensures Valid()
      ensures modules == [] && games == [] && aots == old(aots)
    {
      modules := [];
      games := [];
    }

    /** Appends a new AOT name; a name already present is an error and changes nothing. */
    method RegisterAotLibraryName(name: string) returns (r: Outcome<Error>)
      requires Valid()
      modifies this
      ensures Valid()
      ensures RegisterAot(old(State()), name).Ok? ==> r == Pass && State() == RegisterAot(old(State()), name).value
      ensures RegisterAot(old(State()), name).Err? ==> r == Fail(AotLibraryAlreadyRegistered) && State() == old(State())
    {
      if name in aots {
        return Fail(AotLibraryAlreadyRegistered);
      }
      RegisterAotKeepsNamesUnique(State(), name);
      aots := aots + [name];
      r := Pass;
    }

    /** Empties the AOT list; the library lists are untouched. */
    method UnregisterAllAotLibraryNames()
      requires Valid()
      modifies this
      ensures Valid()
      ensures aots == [] && modules == old(modules) && games == old(games)
    {
      aots := [];
    }
  }
}

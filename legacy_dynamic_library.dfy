/**
 * The earlier library list of `Runtime/Common/DynamicLibrary.cs`: two fixed lists whose entries
 * carry a tutorial flag and a reloadable flag instead of a tag set.
 */
module LegacyLibraries {
  import opened Sequences

  datatype LibraryInfo = LibraryInfo(order: int, name: string, tutorial: bool, reloadable: bool)

  const NovaLibraryName: string := "Nova.Library"
  const NovaEngineName: string := "Nova.Engine"
  const NovaBasicName: string := "Nova.Basic"
  const NovaImportName: string := "Nova.Import"
  const NovaSampleName: string := "Nova.Sample"

  /** The external control entrance, a fixed setting. */
  const ExternalControlEntranceName: string := NovaBasicName

  /** `_coreLibraries`: the sample library is the only tutorial entry. */
  const CoreLibraries: seq<LibraryInfo> := [
    LibraryInfo(1, NovaLibraryName, false, false),
    LibraryInfo(2, NovaEngineName, false, false),
    LibraryInfo(3, NovaBasicName, false, false),
    LibraryInfo(4, NovaImportName, false, false),
    LibraryInfo(5, NovaSampleName, true, false)
  ]

  /** `_gameLibraries`: the hotfix library is the only reloadable entry. */
  const GameLibraries: seq<LibraryInfo> := [
    LibraryInfo(11, "Agen", false, false),
    LibraryInfo(12, "Game", false, false),
    LibraryInfo(13, "GameHotfix", false, true)
  ]

  /** An entry is shown unless it is a tutorial library and tutorials are off. */
  predicate Shown(info: LibraryInfo, tutorial: bool)
  {
    tutorial || !info.tutorial
  }

  /** The names of the shown entries, in list order. */
  function Listed(libs: seq<LibraryInfo>, tutorial: bool): seq<string>
  {
    if libs == [] then []
    else
      var last := libs[|libs| - 1];
      Listed(libs[..|libs| - 1], tutorial) + (if Shown(last, tutorial) then [last.name] else [])
  }

  /** The names of the shown entries that are reloadable, in list order. */
  function Reloadable(libs: seq<LibraryInfo>, tutorial: bool): seq<string>
  {
    if libs == [] then []
    else
      var last := libs[|libs| - 1];
      Reloadable(libs[..|libs| - 1], tutorial) + (if Shown(last, tutorial) && last.reloadable then [last.name] else [])
  }

  /** The names of all entries, in list order. */
  function Names(libs: seq<LibraryInfo>): seq<string>
  {
    if libs == [] then [] else Names(libs[..|libs| - 1]) + [libs[|libs| - 1].name]
  }

  lemma ListedStep(libs: seq<LibraryInfo>, n: nat, tutorial: bool)
    requires n < |libs|
    ensures Listed(libs[..n + 1], tutorial) == Listed(libs[..n], tutorial) + (if Shown(libs[n], tutorial) then [libs[n].name] else [])
    ensures Reloadable(libs[..n + 1], tutorial) ==
              Reloadable(libs[..n], tutorial) + (if Shown(libs[n], tutorial) && libs[n].reloadable then [libs[n].name] else [])
  {
    assert libs[..n + 1][..n] == libs[..n];
  }

  /** Every core name, then every game name, skipping tutorial libraries unless `tutorial` is set. */
  method GetAllAssemblyNames(tutorial: bool) returns (assemblyNames: seq<string>)
    ensures assemblyNames == Listed(CoreLibraries, tutorial) + Listed(GameLibraries, tutorial)
  {
    assemblyNames := [];
    var n := 0;
    while n < |CoreLibraries|
      invariant 0 <= n <= |CoreLibraries|
      invariant assemblyNames == Listed(CoreLibraries[..n], tutorial)
    {
      var info := CoreLibraries[n];
      ListedStep(CoreLibraries, n, tutorial);
      n := n + 1;
      if !tutorial && info.tutorial {
        continue;
      }
      assemblyNames := assemblyNames + [info.name];
    }
    assert CoreLibraries[..n] == CoreLibraries;
    ghost var core := assemblyNames;
    n := 0;
    while n < |GameLibraries|
      invariant 0 <= n <= |GameLibraries|
      invariant assemblyNames == core + Listed(GameLibraries[..n], tutorial)
    {
      var info := GameLibraries[n];
      ListedStep(GameLibraries, n, tutorial);
      n := n + 1;
      if !tutorial && info.tutorial {
        continue;
      }
      assemblyNames := assemblyNames + [info.name];
    }
    assert GameLibraries[..n] == GameLibraries;
  }

  /** The reloadable game names; core libraries can never be reloaded and are skipped. */
  method GetAllReloadableAssemblyNames(tutorial: bool) returns (assemblyNames: seq<string>)
    ensures assemblyNames == Reloadable(GameLibraries, tutorial)
  {
    assemblyNames := [];
    var n := 0;
    while n < |GameLibraries|
      invariant 0 <= n <= |GameLibraries|
      invariant assemblyNames == Reloadable(GameLibraries[..n], tutorial)
    {
      var info := GameLibraries[n];
      ListedStep(GameLibraries, n, tutorial);
      n := n + 1;
      if !tutorial && info.tutorial {
        continue;
      }
      if info.reloadable {
        assemblyNames := assemblyNames + [info.name];
      }
    }
    assert GameLibraries[..n] == GameLibraries;
  }

  /** A name is listed exactly when some entry with it is shown. */
  lemma {:induction false} ListedMembers(libs: seq<LibraryInfo>, tutorial: bool, name: string)
    ensures name in Listed(libs, tutorial) <==>
              exists i :: 0 <= i < |libs| && libs[i].name == name && Shown(libs[i], tutorial)
  {
    if libs != [] {
      var init := libs[..|libs| - 1];
      ListedMembers(init, tutorial, name);
      assert forall i :: 0 <= i < |init| ==> init[i] == libs[i];
      if exists i :: 0 <= i < |libs| && libs[i].name == name && Shown(libs[i], tutorial) {
        var i :| 0 <= i < |libs| && libs[i].name == name && Shown(libs[i], tutorial);
        if i < |init| {
          assert init[i].name == name && Shown(init[i], tutorial);
        }
      }
    }
  }

  /** With tutorials on, every entry is listed. */
  lemma {:induction false} TutorialListsEverything(libs: seq<LibraryInfo>)
    ensures Listed(libs, true) == Names(libs)
  {
    if libs != [] {
      TutorialListsEverything(libs[..|libs| - 1]);
    }
  }

  /** The reloadable names are a sub-list of the listed names, in the same order. */
  lemma {:induction false} ReloadableWithinListed(libs: seq<LibraryInfo>, tutorial: bool)
    ensures IsSubsequence(Reloadable(libs, tutorial), Listed(libs, tutorial))
  {
    if libs != [] {
      var init := libs[..|libs| - 1];
      var last := libs[|libs| - 1];
      ReloadableWithinListed(init, tutorial);
      var r := Reloadable(init, tutorial);
      var l := Listed(init, tutorial);
      if Shown(last, tutorial) {
        var ls := l + [last.name];
        assert Listed(libs, tutorial) == ls;
        assert ls[..|ls| - 1] == l;
        if last.reloadable {
          var rs := r + [last.name];
          assert Reloadable(libs, tutorial) == rs;
          assert rs[..|rs| - 1] == r;
          assert IsSubsequence(rs, ls);
        } else {
          assert Reloadable(libs, tutorial) == r + [] == r;
          assert IsSubsequence(r, ls);
        }
      } else {
        assert Listed(libs, tutorial) == l + [] == l;
        assert Reloadable(libs, tutorial) == r + [] == r;
      }
    }
  }

  /** The listed names keep the order of the entries. */
  lemma {:induction false} ListedIsSubsequence(libs: seq<LibraryInfo>, tutorial: bool)
    ensures IsSubsequence(Listed(libs, tutorial), Names(libs))
  {
    if libs != [] {
      var init := libs[..|libs| - 1];
      var last := libs[|libs| - 1];
      ListedIsSubsequence(init, tutorial);
      var l := Listed(init, tutorial);
      var ns := Names(init) + [last.name];
      assert Names(libs) == ns;
      assert ns[..|ns| - 1] == Names(init);
      if Shown(last, tutorial) {
        var ls := l + [last.name];
        assert Listed(libs, tutorial) == ls;
        assert ls[..|ls| - 1] == l;
        assert IsSubsequence(ls, ns);
      } else {
        assert Listed(libs, tutorial) == l + [] == l;
        assert IsSubsequence(l, ns);
      }
    }
  }

  lemma CoreListed(tutorial: bool)
    ensures Listed(CoreLibraries, tutorial) ==
              [NovaLibraryName, NovaEngineName, NovaBasicName, NovaImportName] + (if tutorial then [NovaSampleName] else [])
  {
    assert CoreLibraries[..0] == [];
    ListedStep(CoreLibraries, 0, tutorial);
    ListedStep(CoreLibraries, 1, tutorial);
    ListedStep(CoreLibraries, 2, tutorial);
    ListedStep(CoreLibraries, 3, tutorial);
    ListedStep(CoreLibraries, 4, tutorial);
    assert CoreLibraries[..5] == CoreLibraries;
  }

  lemma GameListed(tutorial: bool)
    ensures Listed(GameLibraries, tutorial) == ["Agen", "Game", "GameHotfix"]
  {
    assert GameLibraries[..0] == [];
    ListedStep(GameLibraries, 0, tutorial);
    ListedStep(GameLibraries, 1, tutorial);
    ListedStep(GameLibraries, 2, tutorial);
    assert GameLibraries[..3] == GameLibraries;
  }

  /** Every reloadable name is a listed name, and there are never more of them. */
  lemma ReloadableNamesAreListed(libs: seq<LibraryInfo>, tutorial: bool)
    ensures |Reloadable(libs, tutorial)| <= |Listed(libs, tutorial)|
    ensures forall n :: n in Reloadable(libs, tutorial) ==> n in Listed(libs, tutorial)
  {
    ReloadableWithinListed(libs, tutorial);
    SubsequenceMembers(Reloadable(libs, tutorial), Listed(libs, tutorial));
  }

  /** Without tutorials, the sample library is left out and the other seven are listed in order. */
  lemma AllNamesWithoutTutorial()
    ensures Listed(CoreLibraries, false) + Listed(GameLibraries, false) ==
              [NovaLibraryName, NovaEngineName, NovaBasicName, NovaImportName, "Agen", "Game", "GameHotfix"]
  {
    CoreListed(false);
    GameListed(false);
  }

  /** With tutorials, all eight names are listed, core first. */
  lemma AllNamesWithTutorial()
    ensures Listed(CoreLibraries, true) + Listed(GameLibraries, true) ==
              [NovaLibraryName, NovaEngineName, NovaBasicName, NovaImportName, NovaSampleName, "Agen", "Game", "GameHotfix"]
  {
    CoreListed(true);
    GameListed(true);
  }

  /** Only the hotfix library is reloadable, whatever the tutorial state. */
  lemma OnlyHotfixReloads(tutorial: bool)
    ensures Reloadable(GameLibraries, tutorial) == ["GameHotfix"]
  {
    assert GameLibraries[..0] == [];
    ListedStep(GameLibraries, 0, tutorial);
    ListedStep(GameLibraries, 1, tutorial);
    ListedStep(GameLibraries, 2, tutorial);
    assert GameLibraries[..3] == GameLibraries;
  }

  /** A reloadable name is never a core library's name. */
  lemma ReloadableExcludesCore(tutorial: bool, name: string)
    requires name in Reloadable(GameLibraries, tutorial)
    ensures forall i :: 0 <= i < |CoreLibraries| ==> CoreLibraries[i].name != name
  {
    OnlyHotfixReloads(tutorial);
  }

  /** The entrance is a core library that is not a tutorial, so it is always listed. */
  lemma EntranceAlwaysListed(tutorial: bool)
    ensures ExternalControlEntranceName in Listed(CoreLibraries, tutorial)
  {
    ListedMembers(CoreLibraries, tutorial, ExternalControlEntranceName);
    assert CoreLibraries[2].name == ExternalControlEntranceName && Shown(CoreLibraries[2], tutorial);
  }
}

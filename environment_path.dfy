/** The path resolver of `EnvironmentPath.cs`: variable keys from path types, a per-type cache, file paths. */
module Paths {
  import opened Wrappers
  import opened Variables

  /**
   * A member of the `ResourcePathType` enumeration, known by the name its `ToString()` gives.
   * The enumeration itself is declared elsewhere; the registry uses `LinkLibraryPath`.
   */
  datatype ResourcePathType = ResourcePathType(memberName: string)

  const LinkLibraryPath: ResourcePathType := ResourcePathType("LinkLibraryPath")

  // ----- ASCII case (Char.IsUpper / ToUpper restricted to ASCII) -----

  predicate IsUpper(c: char)
  {
    'A' <= c <= 'Z'
  }

  predicate IsLower(c: char)
  {
    'a' <= c <= 'z'
  }

  function ToUpper(c: char): (u: char)
    ensures !IsLower(u)
    ensures IsLower(c) ==> IsUpper(u)
    ensures !IsLower(c) ==> u == c
  {
    if IsLower(c) then (c as int - 'a' as int + 'A' as int) as char else c
  }

  /** `String.ToUpper()`: every character upper-cased, nothing else changed. */
  function UpperString(s: string): (r: string)
    ensures |r| == |s|
    ensures forall i :: 0 <= i < |s| ==> r[i] == ToUpper(s[i])
  {
    if s == [] then [] else UpperString(s[..|s| - 1]) + [ToUpper(s[|s| - 1])]
  }

  // ----- CamelCase to UPPER_SNAKE -----

  /** What one character of the member name contributes; `first` is its being at index 0. */
  function Piece(c: char, first: bool): string
  {
    (if !first && IsUpper(c) then "_" else "") + [ToUpper(c)]
  }

  /**
   * The variable key of a member name: every upper-case letter after index 0 starts a new word,
   * words are joined by `_`, and everything is upper-cased.
   */
  function SnakeCase(s: string): string
  {
    if s == [] then [] else SnakeCase(s[..|s| - 1]) + Piece(s[|s| - 1], |s| == 1)
  }

  /** The number of upper-case letters at index 1 or later. */
  function UppersAfterFirst(s: string): nat
  {
    if |s| <= 1 then 0 else UppersAfterFirst(s[..|s| - 1]) + (if IsUpper(s[|s| - 1]) then 1 else 0)
  }

  /** `s` with every `_` deleted. */
  function RemoveUnderscores(s: string): string
  {
    if s == [] then [] else RemoveUnderscores(s[..|s| - 1]) + (if s[|s| - 1] == '_' then "" else [s[|s| - 1]])
  }

  lemma {:induction false} RemoveUnderscoresConcat(a: string, b: string)
    ensures RemoveUnderscores(a + b) == RemoveUnderscores(a) + RemoveUnderscores(b)
    decreases |b|
  {
    if b == [] {
      assert a + b == a;
    } else {
      var init := b[..|b| - 1];
      assert (a + b)[..|a + b| - 1] == a + init;
      RemoveUnderscoresConcat(a, init);
    }
  }

  /** The key is never shorter than the name, and it begins with the name's first letter, upper-cased. */
  lemma {:induction false} SnakeCaseShape(s: string)
    ensures |SnakeCase(s)| == |s| + UppersAfterFirst(s)
    ensures s != [] ==> SnakeCase(s)[0] == ToUpper(s[0])
  {
    if s != [] {
      var init := s[..|s| - 1];
      SnakeCaseShape(init);
      if |s| > 1 {
        assert init[0] == s[0];
      }
    }
  }

  /** No `_` at the front of a key whose name does not start with one. */
  lemma NoLeadingUnderscore(s: string)
    requires s != [] && s[0] != '_'
    ensures SnakeCase(s)[0] != '_'
  {
    SnakeCaseShape(s);
  }

  /** The key holds no lower-case letter. */
  lemma {:induction false} SnakeCaseIsUpper(s: string)
    ensures forall i :: 0 <= i < |SnakeCase(s)| ==> !IsLower(SnakeCase(s)[i])
  {
    if s != [] {
      SnakeCaseIsUpper(s[..|s| - 1]);
    }
  }

  /** One `_` per word break: the `_`s of the key are the name's own plus one per capital after index 0. */
  lemma {:induction false} SnakeCaseUnderscores(s: string)
    ensures multiset(SnakeCase(s))['_'] == UppersAfterFirst(s) + multiset(s)['_']
  {
    if s != [] {
      var init := s[..|s| - 1];
      var c := s[|s| - 1];
      SnakeCaseUnderscores(init);
      assert s == init + [c];
      assert multiset(s)['_'] == multiset(init)['_'] + multiset([c])['_'];
      assert multiset(SnakeCase(s)) == multiset(SnakeCase(init)) + multiset(Piece(c, |s| == 1));
      PieceUnderscores(c, |s| == 1);
    }
  }

  lemma PieceUnderscores(c: char, first: bool)
    ensures multiset(Piece(c, first))['_'] == (if !first && IsUpper(c) then 1 else 0) + multiset([c])['_']
  {
    var sep := if !first && IsUpper(c) then "_" else "";
    assert Piece(c, first) == sep + [ToUpper(c)];
    assert multiset(Piece(c, first)) == multiset(sep) + multiset([ToUpper(c)]);
    assert ToUpper(c) == '_' <==> c == '_';
  }

  /** Deleting the `_`s of the key gives back the upper-cased name, when the name has no `_`. */
  lemma {:induction false} SnakeCaseStripped(s: string)
    requires '_' !in s
    ensures RemoveUnderscores(SnakeCase(s)) == UpperString(s)
  {
    if s != [] {
      var init := s[..|s| - 1];
      var c := s[|s| - 1];
      assert '_' !in init by {
        assert forall i :: 0 <= i < |init| ==> init[i] == s[i];
      }
      SnakeCaseStripped(init);
      RemoveUnderscoresConcat(SnakeCase(init), Piece(c, |s| == 1));
      assert RemoveUnderscores(Piece(c, |s| == 1)) == [ToUpper(c)] by {
        RemoveUnderscoresConcat(if |s| != 1 && IsUpper(c) then "_" else "", [ToUpper(c)]);
        assert RemoveUnderscores([ToUpper(c)]) == RemoveUnderscores([]) + [ToUpper(c)];
      }
      assert UpperString(s) == UpperString(init) + [ToUpper(c)];
    }
  }

  /** One more character of a name's prefix adds its piece to the key. */
  lemma SnakeCasePrefixStep(s: string, pos: nat)
    requires 0 < pos <= |s|
    ensures SnakeCase(s[..pos]) == SnakeCase(s[..pos - 1]) + Piece(s[pos - 1], pos == 1)
  {
    var prefix := s[..pos];
    assert prefix[..pos - 1] == s[..pos - 1];
  }

  lemma UpperSliceStep(s: string, start: nat, pos: nat)
    requires start < pos <= |s|
    ensures UpperString(s[start..pos]) == UpperString(s[start..pos - 1]) + [ToUpper(s[pos - 1])]
  {
    var word := s[start..pos];
    assert word[..|word| - 1] == s[start..pos - 1];
  }

  /** A word's first character: its piece is the separator (none for the first word) and the letter upper-cased. */
  lemma WordStart(s: string, start: nat)
    requires start < |s|
    requires start == 0 || IsUpper(s[start])
    ensures SnakeCase(s[..start + 1]) == SnakeCase(s[..start]) + (if start > 0 then "_" else "") + UpperString(s[start..start + 1])
  {
    SnakeCasePrefixStep(s, start + 1);
    UpperSliceStep(s, start, start + 1);
    var sep := if start > 0 then "_" else "";
    var piece := [ToUpper(s[start])];
    assert Piece(s[start], start + 1 == 1) == sep + piece;
    assert UpperString(s[start..start + 1]) == piece;
    assert SnakeCase(s[..start]) + (sep + piece) == SnakeCase(s[..start]) + sep + piece;
  }

  /** A lower-case (or other non-capital) character extends the current word. */
  lemma WordGrow(s: string, start: nat, pos: nat, key: string)
    requires start + 1 < pos <= |s| && !IsUpper(s[pos - 1])
    requires SnakeCase(s[..pos - 1]) == key + UpperString(s[start..pos - 1])
    ensures SnakeCase(s[..pos]) == key + UpperString(s[start..pos])
  {
    SnakeCasePrefixStep(s, pos);
    UpperSliceStep(s, start, pos);
    var piece := [ToUpper(s[pos - 1])];
    assert Piece(s[pos - 1], pos == 1) == piece;
    assert key + UpperString(s[start..pos - 1]) + piece == key + (UpperString(s[start..pos - 1]) + piece);
  }

  /** After the words before index `start`, the characters up to `pos` form one word. */
  lemma {:induction false} WordStep(s: string, start: nat, pos: nat)
    requires start < pos <= |s|
    requires start == 0 || IsUpper(s[start])
    requires forall j :: start < j < pos ==> !IsUpper(s[j])
    ensures SnakeCase(s[..pos]) == SnakeCase(s[..start]) + (if start > 0 then "_" else "") + UpperString(s[start..pos])
    decreases pos
  {
    if pos == start + 1 {
      WordStart(s, start);
    } else {
      WordStep(s, start, pos - 1);
      WordGrow(s, start, pos, SnakeCase(s[..start]) + (if start > 0 then "_" else ""));
    }
  }

  /** A name whose only capital is at index 0 is one word. */
  lemma FirstWord(w: string)
    requires w != []
    requires forall j :: 0 < j < |w| ==> !IsUpper(w[j])
    ensures SnakeCase(w) == UpperString(w)
  {
    assert w[..|w|] == w;
    assert w[0..|w|] == w;
    assert w[..0] == [];
    WordStep(w, 0, |w|);
  }

  /** A capitalised word appended to a name adds `_` and the word in upper case. */
  lemma AppendWord(a: string, w: string)
    requires a != [] && w != [] && IsUpper(w[0])
    requires forall j :: 0 < j < |w| ==> !IsUpper(w[j])
    ensures SnakeCase(a + w) == SnakeCase(a) + "_" + UpperString(w)
  {
    var s := a + w;
    assert s[..|s|] == s;
    assert s[..|a|] == a;
    assert s[|a|..|s|] == w;
    WordStep(s, |a|, |s|);
  }

  /** Names of one word and names grown by one capitalised word, as used by the examples below. */
  lemma WordKey(w: string, upper: string)
    requires w != [] && forall j :: 0 < j < |w| ==> !IsUpper(w[j])
    requires UpperString(w) == upper
    ensures SnakeCase(w) == upper
  {
    FirstWord(w);
  }

  lemma GrownKey(a: string, key: string, w: string, upper: string)
    requires a != [] && SnakeCase(a) == key
    requires w != [] && IsUpper(w[0]) && forall j :: 0 < j < |w| ==> !IsUpper(w[j])
    requires UpperString(w) == upper
    ensures SnakeCase(a + w) == key + "_" + upper
  {
    AppendWord(a, w);
  }

  lemma CoreEngineKey()
    ensures SnakeCase("CoreEngine") == "CORE_ENGINE"
  {
    WordKey("Core", "CORE");
    GrownKey("Core", "CORE", "Engine", "ENGINE");
    assert "Core" + "Engine" == "CoreEngine";
  }

  /** The example in the documentation of `ConvertPathTypeToName`. */
  lemma DocumentedExample()
    ensures SnakeCase("CoreEngineClassType") == "CORE_ENGINE_CLASS_TYPE"
  {
    CoreEngineKey();
    GrownKey("CoreEngine", "CORE_ENGINE", "Class", "CLASS");
    assert "CoreEngine" + "Class" == "CoreEngineClass";
    GrownKey("CoreEngineClass", "CORE_ENGINE_CLASS", "Type", "TYPE");
    assert "CoreEngineClass" + "Type" == "CoreEngineClassType";
  }

  lemma LinkLibraryKey()
    ensures SnakeCase("LinkLibrary") == "LINK_LIBRARY"
  {
    WordKey("Link", "LINK");
    GrownKey("Link", "LINK", "Library", "LIBRARY");
    assert "Link" + "Library" == "LinkLibrary";
  }

  /** The key the registry's library directory is stored under. */
  lemma LinkLibraryPathKey()
    ensures SnakeCase(LinkLibraryPath.memberName) == "LINK_LIBRARY_PATH"
  {
    LinkLibraryKey();
    GrownKey("LinkLibrary", "LINK_LIBRARY", "Path", "PATH");
    assert "LinkLibrary" + "Path" == "LinkLibraryPath";
  }

  /** A name with a single capital is a single word, with no `_`. */
  lemma SingleWordExample()
    ensures SnakeCase("Aot") == "AOT"
  {
    WordKey("Aot", "AOT");
  }

  /**
   * `ConvertPathTypeToName`. The source reads index 1 before testing the length, so a
   * one-character name is outside what it accepts; an empty name is returned unchanged.
   */
  method ConvertPathTypeToName(memberName: string) returns (r: string)
    requires |memberName| != 1
    ensures r == SnakeCase(memberName)
  {
    if memberName == "" {
      return memberName;
    }
    var sb := "";
    var start := 0;
    var pos := 1;
    // a do-while loop: its first test would hold, since the name has at least two characters
    while pos < |memberName|
      invariant 0 <= start < pos <= |memberName|
      invariant start == 0 || IsUpper(memberName[start])
      invariant forall j :: start < j < pos ==> !IsUpper(memberName[j])
      invariant sb == SnakeCase(memberName[..start])
    {
      if IsUpper(memberName[pos]) {
        var subName := memberName[start..pos];
        WordStep(memberName, start, pos);
        SnakeCaseShape(memberName[..start]);
        if |sb| > 0 {
          sb := sb + "_";
        }
        sb := sb + UpperString(subName);
        start := pos;
      }
      pos := pos + 1;
    }
    var subName := memberName[start..pos];
    WordStep(memberName, start, pos);
    SnakeCaseShape(memberName[..start]);
    if |sb| > 0 {
      sb := sb + "_";
    }
    sb := sb + UpperString(subName);
    assert memberName[..pos] == memberName;
    r := sb;
  }

  // ----- joining paths -----

  /** The directory separator `Path.Combine` inserts. */
  const DirectorySeparator: char := '/'

  predicate IsSeparator(c: char)
  {
    c == '/' || c == '\\'
  }

  /**
   * `Path.Combine(root, rel)` for a relative `rel`: an empty side yields the other, and a
   * separator is inserted unless `root` already ends with one.
   */
  function Combine(root: string, rel: string): (r: string)
    ensures root == "" ==> r == rel
    ensures rel == "" ==> r == root
    ensures |r| >= |root| + |rel| && r[..|root|] == root && r[|r| - |rel|..] == rel
  {
    if root == "" then rel
    else if rel == "" then root
    else if IsSeparator(root[|root| - 1]) then root + rel
    else root + [DirectorySeparator] + rel
  }

  /** `Path.Combine(paths)` over a parameter array, folded from the left. */
  function CombineAll(paths: seq<string>): string
  {
    if paths == [] then "" else Combine(CombineAll(paths[..|paths| - 1]), paths[|paths| - 1])
  }

  /** `.Replace('\\', '/')`. */
  function Normalize(s: string): (r: string)
    ensures |r| == |s|
    ensures forall i :: 0 <= i < |s| ==> r[i] == if s[i] == '\\' then '/' else s[i]
  {
    if s == [] then [] else Normalize(s[..|s| - 1]) + [if s[|s| - 1] == '\\' then '/' else s[|s| - 1]]
  }

  /** The body shared by both `GetFilePath` overloads, given the root they looked up. */
  function JoinFilePath(root: Option<string>, paths: seq<string>): Option<string>
  {
    if root.None? || root.value == "" then root
    else Some(Normalize(Combine(root.value, CombineAll(paths))))
  }

  /** A null or empty root passes through; otherwise the path extends the normalised root and has no `\`. */
  lemma JoinFilePathShape(root: Option<string>, paths: seq<string>)
    ensures root.None? || root.value == "" ==> JoinFilePath(root, paths) == root
    ensures root.Some? && root.value != "" ==>
              && JoinFilePath(root, paths).Some?
              && '\\' !in JoinFilePath(root, paths).value
              && |JoinFilePath(root, paths).value| >= |root.value|
              && JoinFilePath(root, paths).value[..|root.value|] == Normalize(root.value)
  {
    if root.Some? && root.value != "" {
      var joined := Combine(root.value, CombineAll(paths));
      var r := Normalize(joined);
      assert forall i :: 0 <= i < |r| ==> r[i] != '\\';
      assert r[..|root.value|] == Normalize(joined[..|root.value|]);
    }
  }

  class EnvironmentPath {
    /** The `EnvironmentVariables` singleton the paths are read from. */
    const environment: EnvironmentVariables
    /** `_cachePaths`. */
    var cachePaths: map<ResourcePathType, string>

    /** Only non-empty resolutions are ever cached. */
    ghost predicate Valid()
      reads this
    {
      forall t :: t in cachePaths ==> cachePaths[t] != ""
    }

    constructor (environment: EnvironmentVariables)
      ensures this.environment == environment && cachePaths == map[] && Valid()
    {
      this.environment := environment;
      cachePaths := map[];
    }

    /** `GetPath(string key)`: the variable's value, `None` (null) when it is not set. */
    function GetPathByKey(key: string): (r: Option<string>)
      reads environment
      ensures r.Some? <==> key in environment.variables
      ensures r.Some? ==> r.value == environment.variables[key]
    {
      environment.GetValue(key)
    }

    /** What `GetPath(pathType)` returns from the cache `cache`. */
    function Resolve(cache: map<ResourcePathType, string>, pathType: ResourcePathType): Option<string>
      reads environment
    {
      if pathType in cache then Some(cache[pathType]) else GetPathByKey(SnakeCase(pathType.memberName))
    }

    /** The cache after `GetPath(pathType)`: a new, non-empty resolution is added; nothing else changes. */
    function CacheAfter(cache: map<ResourcePathType, string>, pathType: ResourcePathType): map<ResourcePathType, string>
      reads environment
    {
      var path := Resolve(cache, pathType);
      if pathType !in cache && path.Some? && path.value != "" then cache[pathType := path.value] else cache
    }

    /**
     * `GetPath(ResourcePathType type)`: a cached value is returned as it is, whatever the store
     * now holds; otherwise the key is looked up and cached only when it is neither null nor empty.
     */
    method GetPath(pathType: ResourcePathType) returns (path: Option<string>)
      requires Valid() && |pathType.memberName| != 1
      modifies this
      ensures Valid()
      ensures path == Resolve(old(cachePaths), pathType)
      ensures pathType in old(cachePaths) ==> path == Some(old(cachePaths)[pathType])
      ensures cachePaths == CacheAfter(old(cachePaths), pathType)
      ensures path == Some("") || path.None? ==> cachePaths == old(cachePaths)
    {
      if pathType in cachePaths {
        return Some(cachePaths[pathType]);
      }
      var name := ConvertPathTypeToName(pathType.memberName);
      path := GetPathByKey(name);
      if path.Some? && path.value != "" {
        cachePaths := cachePaths[pathType := path.value];
      }
    }

    /** `GetFilePath(ResourcePathType type, params string[] paths)`. */
    method GetFilePath(pathType: ResourcePathType, paths: seq<string>) returns (r: Option<string>)
      requires Valid() && |pathType.memberName| != 1
      modifies this
      ensures Valid()
      ensures r == JoinFilePath(Resolve(old(cachePaths), pathType), paths)
      ensures cachePaths == CacheAfter(old(cachePaths), pathType)
    {
      var path := GetPath(pathType);
      if path.None? || path.value == "" {
        return path;
      }
      r := Some(Normalize(Combine(path.value, CombineAll(paths))));
    }

    /** `GetFilePath(string key, params string[] paths)`. */
    function GetFilePathByKey(key: string, paths: seq<string>): (r: Option<string>)
      reads environment
      ensures key !in environment.variables ==> r.None?
      ensures key in environment.variables && environment.variables[key] == "" ==> r == Some("")
      ensures key in environment.variables && environment.variables[key] != "" ==>
                r.Some? && '\\' !in r.value && |r.value| >= |environment.variables[key]|
                && r.value[..|environment.variables[key]|] == Normalize(environment.variables[key])
    {
      JoinFilePathShape(GetPathByKey(key), paths);
      JoinFilePath(GetPathByKey(key), paths)
    }
  }
}

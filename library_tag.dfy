/** The `LibraryTag` flag enumeration (a C# `[Flags] enum : int`) and the parsing of tag names. */
module Tags {
  import opened Wrappers

  type LibraryTag = bv32

  const Unknown: LibraryTag := 0x0000
  // container classification, selected by the low nibble
  const Core: LibraryTag := 0x0001
  const Module: LibraryTag := 0x0002
  const Game: LibraryTag := 0x0004
  // attributes
  const Shared: LibraryTag := 0x0010
  const Compile: LibraryTag := 0x0020
  const Hotfix: LibraryTag := 0x0040
  // debug-only libraries
  const Tutorial: LibraryTag := 0x0100
  const Test: LibraryTag := 0x0200

  /** The `& 0x0f` used by registration to pick a container. */
  const PackTypeMask: LibraryTag := 0x0f

  /** Every named flag other than `Unknown`, with its enum member name at the same index. */
  const NamedFlags: seq<LibraryTag> := [Core, Module, Game, Shared, Compile, Hotfix, Tutorial, Test]
  const FlagNames: seq<string> := ["Core", "Module", "Game", "Shared", "Compile", "Hotfix", "Tutorial", "Test"]

  /** The flags that do not classify a library. */
  const AttributeFlags: seq<LibraryTag> := [Shared, Compile, Hotfix, Tutorial, Test]

  function PackType(tag: LibraryTag): LibraryTag
  {
    tag & PackTypeMask
  }

  predicate IsSingleBit(tag: LibraryTag)
  {
    tag != 0 && tag & (tag - 1) == 0
  }

  /** `Unknown` is the neutral start of the OR-accumulation in registration. */
  lemma UnknownIsIdentity(tag: LibraryTag)
    ensures tag | Unknown == tag && Unknown | tag == tag
  {
  }

  /** Each named flag is one bit, and no two named flags share a bit. */
  lemma NamedFlagsAreDistinctBits()
    ensures forall i :: 0 <= i < |NamedFlags| ==> IsSingleBit(NamedFlags[i])
    ensures forall i, j :: 0 <= i < j < |NamedFlags| ==> NamedFlags[i] & NamedFlags[j] == 0
  {
  }

  /** The three classification flags lie inside the container mask and are their own pack type. */
  lemma ClassificationFlagsInMask()
    ensures PackType(Core) == Core && PackType(Module) == Module && PackType(Game) == Game
  {
  }

  /** Every bit of `tag` is present in `tags`: the test behind `LibraryInfo.IsContainsTag`. */
  predicate ContainsAll(tags: LibraryTag, tag: LibraryTag)
  {
    tags & tag == tag
  }

  /** A compound query holds exactly when each of its parts holds. */
  lemma ContainsAllOfUnion(tags: LibraryTag, a: LibraryTag, b: LibraryTag)
    ensures ContainsAll(tags, a | b) <==> ContainsAll(tags, a) && ContainsAll(tags, b)
  {
    if ContainsAll(tags, a | b) {
      PartFromUnion(tags, a, b);
      assert a | b == b | a;
      PartFromUnion(tags, b, a);
    }
    if ContainsAll(tags, a) && ContainsAll(tags, b) {
      UnionFromParts(tags, a, b);
    }
  }

  lemma UnionFromParts(tags: LibraryTag, a: LibraryTag, b: LibraryTag)
    requires tags & a == a && tags & b == b
    ensures tags & (a | b) == a | b
  {
  }

  lemma PartFromUnion(tags: LibraryTag, a: LibraryTag, b: LibraryTag)
    requires tags & (a | b) == a | b
    ensures tags & a == a
  {
  }

  /** Adding an attribute flag never changes the container a tag set selects. */
  lemma AttributeFlagKeepsPackType(tag: LibraryTag, flag: LibraryTag)
    requires flag in AttributeFlags
    ensures PackType(tag | flag) == PackType(tag)
  {
  }

  /** `Enum.Parse(typeof(LibraryTag), name)` against the fixed member table; `None` is the thrown error. */
  function ParseTag(name: string): (r: Option<LibraryTag>)
    ensures r.Some? <==> name == "Unknown" || name in FlagNames
  {
    if name == "Unknown" then Some(Unknown)
    else if name == "Core" then Some(Core)
    else if name == "Module" then Some(Module)
    else if name == "Game" then Some(Game)
    else if name == "Shared" then Some(Shared)
    else if name == "Compile" then Some(Compile)
    else if name == "Hotfix" then Some(Hotfix)
    else if name == "Tutorial" then Some(Tutorial)
    else if name == "Test" then Some(Test)
    else None
  }

  /** Parsing a member's own name gives back that member. */
  lemma ParseTagRoundTrip()
    ensures ParseTag("Unknown") == Some(Unknown)
    ensures forall i :: 0 <= i < |FlagNames| ==> ParseTag(FlagNames[i]) == Some(NamedFlags[i])
  {
  }

  /**
   * The union of the flags named by `names`, accumulated left to right from `Unknown`;
   * the first name that is not a member is the error.
   */
  function ParseTags(names: seq<string>): Result<LibraryTag, string>
  {
    if names == [] then Ok(Unknown)
    else
      match ParseTags(names[..|names| - 1])
      case Err(bad) => Err(bad)
      case Ok(tag) =>
        match ParseTag(names[|names| - 1])
        case None => Err(names[|names| - 1])
        case Some(flag) => Ok(tag | flag)
  }

  /** One more known name ORs its flag into the parsed prefix. */
  lemma ParseTagsStep(names: seq<string>, n: nat)
    requires n < |names| && ParseTags(names[..n]).Ok? && ParseTag(names[n]).Some?
    ensures ParseTags(names[..n + 1]) == Ok(ParseTags(names[..n]).value | ParseTag(names[n]).value)
  {
    var prefix := names[..n + 1];
    assert prefix[..|prefix| - 1] == names[..n];
    assert prefix[|prefix| - 1] == names[n];
  }

  /** An unknown name after a parsed prefix fails the prefix it ends. */
  lemma ParseTagsFailsAt(names: seq<string>, n: nat)
    requires n < |names| && ParseTags(names[..n]).Ok? && ParseTag(names[n]).None?
    ensures ParseTags(names[..n + 1]) == Err(names[n])
  {
    var prefix := names[..n + 1];
    assert prefix[..|prefix| - 1] == names[..n];
    assert prefix[|prefix| - 1] == names[n];
  }

  /** An unknown name after a parsed prefix is the error of the whole list. */
  lemma ParseTagsStopsAt(names: seq<string>, n: nat)
    requires n < |names| && ParseTags(names[..n]).Ok? && ParseTag(names[n]).None?
    ensures ParseTags(names) == Err(names[n])
  {
    ParseTagsFailsAt(names, n);
    ParseTagsErrorPersists(names[..n + 1], names[n + 1..]);
    assert names[..n + 1] + names[n + 1..] == names;
  }

  /** Parsing succeeds exactly when every name is a member name. */
  lemma {:induction false} ParseTagsSucceedsIff(names: seq<string>)
    ensures ParseTags(names).Ok? <==> forall i :: 0 <= i < |names| ==> ParseTag(names[i]).Some?
  {
    if names != [] {
      var init := names[..|names| - 1];
      ParseTagsSucceedsIff(init);
      assert forall i :: 0 <= i < |init| ==> init[i] == names[i];
    }
  }

  /** A failure reports the first name that is not a member. */
  lemma {:induction false} ParseTagsReportsFirstUnknown(names: seq<string>)
    requires ParseTags(names).Err?
    ensures exists i :: 0 <= i < |names| && names[i] == ParseTags(names).error
                        && ParseTag(names[i]).None?
                        && forall j :: 0 <= j < i ==> ParseTag(names[j]).Some?
  {
    var init := names[..|names| - 1];
    assert forall j :: 0 <= j < |init| ==> init[j] == names[j];
    if ParseTags(init).Err? {
      ParseTagsReportsFirstUnknown(init);
    } else {
      ParseTagsSucceedsIff(init);
      assert names[|names| - 1] == ParseTags(names).error;
    }
  }

  /** Once a name fails to parse, the names after it do not matter. */
  lemma {:induction false} ParseTagsErrorPersists(names: seq<string>, more: seq<string>)
    requires ParseTags(names).Err?
    ensures ParseTags(names + more) == ParseTags(names)
    decreases |more|
  {
    if more == [] {
      assert names + more == names;
    } else {
      var init := more[..|more| - 1];
      assert (names + more)[..|names + more| - 1] == names + init;
      ParseTagsErrorPersists(names, init);
    }
  }

  /** Parsing a concatenation is the union of the two parses. */
  lemma {:induction false} ParseTagsUnion(a: seq<string>, b: seq<string>)
    requires ParseTags(a).Ok? && ParseTags(b).Ok?
    ensures ParseTags(a + b) == Ok(ParseTags(a).value | ParseTags(b).value)
    decreases |b|
  {
    if b == [] {
      assert a + b == a;
    } else {
      var init := b[..|b| - 1];
      assert (a + b)[..|a + b| - 1] == a + init;
      assert (a + b)[|a + b| - 1] == b[|b| - 1];
      assert ParseTags(init).Ok?;
      ParseTagsUnion(a, init);
    }
  }

  /** Adding attribute names such as "Shared" or "Hotfix" never changes the selected container. */
  lemma {:induction false} AttributeNamesKeepPackType(names: seq<string>, attributes: seq<string>)
    requires ParseTags(names).Ok?
    requires forall i :: 0 <= i < |attributes| ==> attributes[i] in FlagNames[3..]
    ensures ParseTags(names + attributes).Ok?
    ensures PackType(ParseTags(names + attributes).value) == PackType(ParseTags(names).value)
    decreases |attributes|
  {
    if attributes == [] {
      assert names + attributes == names;
    } else {
      var init := attributes[..|attributes| - 1];
      var last := attributes[|attributes| - 1];
      assert (names + attributes)[..|names + attributes| - 1] == names + init;
      assert (names + attributes)[|names + attributes| - 1] == last;
      AttributeNamesKeepPackType(names, init);
      var flag := ParseTag(last).value;
      assert flag in AttributeFlags;
      AttributeFlagKeepsPackType(ParseTags(names + init).value, flag);
    }
  }
}

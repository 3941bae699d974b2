/** The library descriptor of `LibraryInfo.cs`: a value whose fields are set once, at construction. */
module Descriptors {
  import opened Wrappers
  import opened Tags

  /** `sourcePath` is `None` where the C# field is left `null`. */
  datatype LibraryInfo = LibraryInfo(order: int, name: string, sourcePath: Option<string>, tags: LibraryTag)
  {
    /** All bits of `tag` are present in this library's tags (not merely some of them). */
    predicate IsContainsTag(tag: LibraryTag)
      ensures IsContainsTag(tag) ==> tags | tag == tags
      ensures tags == tag ==> IsContainsTag(tag)
    {
      ContainsAll(tags, tag)
    }
  }

  /** `Unknown` (no bits) is contained in every tag set. */
  lemma UnknownAlwaysContained(info: LibraryInfo)
    ensures info.IsContainsTag(Unknown)
  {
  }

  /** A compound query holds exactly when each part holds. */
  lemma IsContainsTagOfUnion(info: LibraryInfo, a: LibraryTag, b: LibraryTag)
    ensures info.IsContainsTag(a | b) <==> info.IsContainsTag(a) && info.IsContainsTag(b)
  {
    ContainsAllOfUnion(info.tags, a, b);
  }

  /** A library contains its own tag set. */
  lemma ContainsOwnTags(info: LibraryInfo)
    ensures info.IsContainsTag(info.tags)
  {
  }
}

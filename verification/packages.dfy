/** A loaded package: its messages, services and actions, and its C libraries. */
module Packages {
  import opened Messages

  datatype Library = Library(libraryName: string, includeSuffixes: seq<string>, sourceSuffixes: seq<string>)

  datatype Package = Package(
    name: string,
    msgs: seq<Message>,
    srvs: seq<Service>,
    actions: seq<Action>,
    shareSuffixes: seq<string>,
    generatorLib: Library,
    typesupportLib: Library)
  {
    /** The two library names, generator library first, type support library second. */
    function LibraryNames(): (r: seq<string>)
      ensures |r| == 2 && r[0] == generatorLib.libraryName && r[1] == typesupportLib.libraryName
    {
      [generatorLib.libraryName, typesupportLib.libraryName]
    }

    /** A package is empty when it defines no interface. */
    predicate IsEmpty()
      ensures IsEmpty() <==> |msgs| + |srvs| + |actions| == 0
    {
      msgs == [] && srvs == [] && actions == []
    }
  }

  /** Emptiness looks at the interfaces only, not at the share suffixes or the libraries. */
  lemma IsEmptyIgnoresLayout(p: Package, shareSuffixes: seq<string>, generatorLib: Library, typesupportLib: Library)
    ensures p.(shareSuffixes := shareSuffixes, generatorLib := generatorLib, typesupportLib := typesupportLib).IsEmpty()
      == p.IsEmpty()
  {
  }
}

/**
 * Worked instances of the rules, on concrete strings: status codes sort
 * as text, not as numbers; the helpers split at the last '/'; cleanupOlds
 * matches "json" at the end of the name only.
 */
module Examples {
  import opened Wrappers
  import opened JavaString
  import opened TreeMaps
  import opened TemplateHelpers
  import opened OutputFiles

  // Status codes as code units: '0' is 0x30, so "200" is 0x32 0x30 0x30.
  const Code200: JString := [0x32, 0x30, 0x30]
  const Code404: JString := [0x34, 0x30, 0x34]
  const Code500: JString := [0x35, 0x30, 0x30]
  const Code1000: JString := [0x31, 0x30, 0x30, 0x30]

  /** "1000" sorts before "200": '1' < '2' decides before the lengths are looked at. */
  lemma StatusCodesSortAsText()
    ensures Less(Code1000, Code200) && Less(Code200, Code404) && Less(Code404, Code500)
  {
  }

  /** Responses 500, 200, 404 are rebuilt as 200, 404, 500, each keeping its response. */
  lemma ResponsesRebuiltInOrder<V>(a: V, b: V, c: V)
    ensures TreeMapOf([(Code500, a), (Code200, b), (Code404, c)])
         == [(Code200, b), (Code404, c), (Code500, a)]
  {
    var e := [(Code500, a), (Code200, b), (Code404, c)];
    assert e[..2][..1] == [(Code500, a)];
    assert e[..2] == [(Code500, a), (Code200, b)];
    assert e[..1][..0] == [];
    assert TreeMapOf(e[..1]) == [(Code500, a)];
    assert TreeMapOf(e[..2]) == [(Code200, b), (Code500, a)];
    assert CompareTo(Code404, Code200) > 0 && CompareTo(Code404, Code500) < 0;
    assert PutEntry([(Code500, a)], Code404, c) == [(Code404, c), (Code500, a)];
    assert PutEntry([(Code200, b), (Code500, a)], Code404, c) == [(Code200, b)] + PutEntry([(Code500, a)], Code404, c);
  }

  // "GET" and "POST"
  const GetName: JString := [0x47, 0x45, 0x54]
  const PostName: JString := [0x50, 0x4F, 0x53, 0x54]

  /** {{#ifeq value "GET"}}: the main block for "GET" only; null or another text takes the inverse block. */
  lemma IfEqOnMethodNames()
    ensures IfEq(Some(GetName), StrArg(GetName)) == Then
    ensures IfEq(Some(GetName), StrArg(PostName)) == Else
    ensures IfEq(None, StrArg(GetName)) == Else
    ensures IfEq(Some(GetName), NullArg) == Else
    ensures IfEq(Some(GetName), OtherArg) == Else
  {
  }

  // "v1" 0x76 0x31, "pets.json" p e t s . j s o n, "swagger.json" s w a g g e r . j s o n
  const Dir: JString := [0x76, 0x31]
  const PetsJson: JString := [0x70, 0x65, 0x74, 0x73, 0x2E, 0x6A, 0x73, 0x6F, 0x6E]
  const SwaggerJson: JString := [0x73, 0x77, 0x61, 0x67, 0x67, 0x65, 0x72, 0x2E, 0x6A, 0x73, 0x6F, 0x6E]

  /** "v1/pets.json" has basename "pets.json" and parent "v1", and is created as pets.json in v1. */
  lemma HelpersOnAPath()
    ensures Basename(Some(Dir + [Slash] + PetsJson)) == Some(PetsJson)
    ensures UrlParent(Some(Dir + [Slash] + PetsJson)) == Some(Dir)
    ensures SplitResourcePath(Dir + [Slash] + PetsJson) == Target(Some(Dir), PetsJson)
  {
    assert Slash !in PetsJson;
    SplitAtLastSlash(Dir, PetsJson);
  }

  /** "swagger.json" has no '/', so createFile puts it directly in the output directory. */
  lemma FileWithoutDirectory()
    ensures SplitResourcePath(SwaggerJson) == Target(None, SwaggerJson)
  {
    assert Slash !in SwaggerJson;
  }

  // "foojson", "old.json", "keep.txt", "data.JSON"
  const FooJson: JString := [0x66, 0x6F, 0x6F, 0x6A, 0x73, 0x6F, 0x6E]
  const OldJson: JString := [0x6F, 0x6C, 0x64, 0x2E, 0x6A, 0x73, 0x6F, 0x6E]
  const KeepTxt: JString := [0x6B, 0x65, 0x65, 0x70, 0x2E, 0x74, 0x78, 0x74]
  const DataUpperJson: JString := [0x64, 0x61, 0x74, 0x61, 0x2E, 0x4A, 0x53, 0x4F, 0x4E]

  /** The name test: any ending "json" counts, with or without a dot; upper case does not. */
  lemma StaleNames()
    ensures IsStale(FooJson) && IsStale(OldJson)
    ensures !IsStale(KeepTxt) && !IsStale(DataUpperJson)
  {
  }
}

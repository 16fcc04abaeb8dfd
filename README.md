# A verified model of the swagger-maven-plugin document source

This project models the deterministic core of `AbstractDocumentSource` from
swagger-maven-plugin, the class that turns a scanned Swagger document into
output files. Three parts are modelled:

- **The API-model normalizer**, `reorderApis` and `reorderResponses`.
  - The document's path mapping is rebuilt as a `TreeMap` ordered by
    `String.compareTo`.
  - Then, for every path and each of the six slots Get, Delete, Post, Put,
    Options and Patch that holds an operation, the operation's response
    mapping is rebuilt as a natural-order `TreeMap`.
- **The template helpers** `ifeq` and `basename`, and `getUrlParent`.
- **The file-name rules of the output step.**
  - `createFile` splits a resource path at its last `/` into a
    sub-directory and a file name.
  - `cleanupOlds` deletes every entry whose name ends in `json`.

How the model represents the source:

- **Strings.** A Java string is a sequence of UTF-16 code units
  (`JavaString.JString`). So `JavaString.CompareTo` is `String.compareTo`
  exactly: the difference of the first differing code units, else the
  difference of the lengths. It is proved to be a strict total order.
- **Tree maps.** A `java.util.TreeMap` is represented by what it iterates:
  a sequence of (key, value) entries.
  - `TreeMaps.PutEntry` is `TreeMap.put`.
  - `TreeMaps.TreeMapOf` is `new TreeMap(); putAll(source)`, putting the
    entries in the source map's iteration order.
- **The document.** `Swagger`, `PathItem` and `Operation` are classes.
  `ReorderApis` reassigns `Swagger.paths` and every reached
  `Operation.responses`, as the source does through `swagger.paths(...)`
  and `op.setResponses(...)`.
- **Slots.** The reflective lookup `getDeclaredMethod("get" + method)` is
  the closed datatype `HttpMethod` and `PathItem.Slot`.
- **Maps.** The Java maps the normalizer reads never hold a key twice;
  `ModelNormalizer.WellFormed` states this.

What is proved about the normalizer:

- After `reorderApis`, the paths and every reached operation's responses
  iterate in strictly ascending key order (`Normalized`).
- Each holds exactly the entries it held before: the same multiset of
  (key, value) pairs.
- A second `reorderApis` changes nothing. `ReorderApis` leaves an
  already normalized document's paths unchanged, and any already sorted
  response mapping unchanged.
- The result does not depend on the order in which the source map iterated
  (`TreeMapOfOrderIndependent`).

## Model

| member | source | states |
|---|---|---|
| JavaString.CompareTo | src/main/java/com/github/kongchen/swagger/AbstractDocumentSource.java:244 | the comparator o1.compareTo(o2), also the natural order of the response tree map (line 266): the difference of the first differing code units, else of the lengths; zero exactly when the strings are equal |
| JavaString.CompareToAntisymmetric | src/main/java/com/github/kongchen/swagger/AbstractDocumentSource.java:241-246 | swapping the arguments negates compareTo |
| JavaString.LessIrreflexive | src/main/java/com/github/kongchen/swagger/AbstractDocumentSource.java:241-246 | no key is below itself |
| JavaString.LessTrichotomous | src/main/java/com/github/kongchen/swagger/AbstractDocumentSource.java:241-246 | for any two keys exactly one of below, equal, above holds |
| JavaString.LessTransitive | src/main/java/com/github/kongchen/swagger/AbstractDocumentSource.java:241-246 | the comparator's order is transitive, so sorting by it is well defined |
| JavaString.LastIndexOf | src/main/java/com/github/kongchen/swagger/AbstractDocumentSource.java:151 | -1 exactly when the character is absent; otherwise the position of an occurrence with none after it |
| TreeMaps.SortedHasDistinctKeys | src/main/java/com/github/kongchen/swagger/AbstractDocumentSource.java:241-248 | keys in strictly ascending order are pairwise distinct |
| TreeMaps.PutEntry | src/main/java/com/github/kongchen/swagger/AbstractDocumentSource.java:247 | put keeps the entries in strictly ascending key order |
| TreeMaps.PutEntryContents | src/main/java/com/github/kongchen/swagger/AbstractDocumentSource.java:247 | put adds (k, v), drops any other entry under k, and keeps every entry under another key |
| TreeMaps.TreeMapOf | src/main/java/com/github/kongchen/swagger/AbstractDocumentSource.java:241-247 | a tree map filled by putAll iterates its keys in strictly ascending order |
| TreeMaps.TreeMapOfEntries | src/main/java/com/github/kongchen/swagger/AbstractDocumentSource.java:247-248 | the rebuilt map holds only entries of the source and has exactly the source's keys |
| TreeMaps.PutFresh | src/main/java/com/github/kongchen/swagger/AbstractDocumentSource.java:247 | putting an absent key adds exactly that one entry |
| TreeMaps.TreeMapOfIsPermutation | src/main/java/com/github/kongchen/swagger/AbstractDocumentSource.java:247-248 | for a map without repeated keys, the rebuilt map holds the same multiset of entries: no key added, dropped or rebound |
| TreeMaps.PutAbove | src/main/java/com/github/kongchen/swagger/AbstractDocumentSource.java:247 | putting a key above all present keys appends it |
| TreeMaps.TreeMapOfSorted | src/main/java/com/github/kongchen/swagger/AbstractDocumentSource.java:241-248 | a map that already iterates in ascending order is rebuilt unchanged |
| TreeMaps.TreeMapOfIdempotent | src/main/java/com/github/kongchen/swagger/AbstractDocumentSource.java:241-248 | rebuilding a rebuilt map gives the same map |
| TreeMaps.SortedArrangementUnique | src/main/java/com/github/kongchen/swagger/AbstractDocumentSource.java:241-248 | two ascending entry sequences with the same entries are identical |
| TreeMaps.TreeMapOfOrderIndependent | src/main/java/com/github/kongchen/swagger/AbstractDocumentSource.java:247 | maps with the same entries in different iteration orders are rebuilt identically |
| TreeMaps.PermutationKeepsDistinctKeys | src/main/java/com/github/kongchen/swagger/AbstractDocumentSource.java:247 | reordering a map's entries keeps its keys distinct |
| ModelNormalizer.PathItem.Slot | src/main/java/com/github/kongchen/swagger/AbstractDocumentSource.java:262-263 | the accessor "get" + method, looked up by reflection in the source, as a choice among the six slots |
| ModelNormalizer.MethodListed | src/main/java/com/github/kongchen/swagger/AbstractDocumentSource.java:251 | the six method names visited are all the slots a path has |
| ModelNormalizer.SlotInOperations | src/main/java/com/github/kongchen/swagger/AbstractDocumentSource.java:250-253 | every non-null slot of every path is among the operations the normalizer reaches |
| ModelNormalizer.OperationsInPermutation | src/main/java/com/github/kongchen/swagger/AbstractDocumentSource.java:247-250 | reordering the paths does not change which operations are reached |
| ModelNormalizer.NewTreeMap | src/main/java/com/github/kongchen/swagger/AbstractDocumentSource.java:266-267 | the loop of puts builds TreeMapOf of the entries: ascending, and with the same entries when the keys are distinct |
| ModelNormalizer.ReorderResponses | src/main/java/com/github/kongchen/swagger/AbstractDocumentSource.java:260-268 | a null slot is skipped; otherwise the operation's responses become the tree map of its old responses |
| ModelNormalizer.ReorderSlot | src/main/java/com/github/kongchen/swagger/AbstractDocumentSource.java:253 | one reorderResponses(path, m): the operation in slot m, if any, gets the tree map of its original responses; every other operation keeps its responses |
| ModelNormalizer.ReorderSlots | src/main/java/com/github/kongchen/swagger/AbstractDocumentSource.java:251-254 | after the six methods, every operation in a slot of the path is reordered and every other operation keeps its responses |
| ModelNormalizer.ReorderPaths | src/main/java/com/github/kongchen/swagger/AbstractDocumentSource.java:250-255 | after the loop over the paths, every operation reached from them has the tree map of its old responses and every other operation keeps its responses |
| ModelNormalizer.ReorderApis | src/main/java/com/github/kongchen/swagger/AbstractDocumentSource.java:240-257 | paths become the tree map of the old paths, with the same entries; every non-null slot's responses become the tree map of its old responses, with the same entries; the document is then normalized, and an already normalized document keeps its paths and responses |
| TemplateHelpers.IfEq | src/main/java/com/github/kongchen/swagger/AbstractDocumentSource.java:203-207 | the main block exactly when value and param(0) are both non-null and param(0) is an equal String; the inverse block otherwise |
| TemplateHelpers.Basename | src/main/java/com/github/kongchen/swagger/AbstractDocumentSource.java:214-220 | null to null; no '/' leaves the value unchanged; otherwise a '/'-free suffix that a '/' precedes |
| TemplateHelpers.UrlParent | src/main/java/com/github/kongchen/swagger/AbstractDocumentSource.java:230-237 | null to null; no '/' leaves the text unchanged; otherwise the proper prefix before a '/' that no '/' follows |
| TemplateHelpers.LastSlashOf | src/main/java/com/github/kongchen/swagger/AbstractDocumentSource.java:215 | the last '/' of prefix + "/" + tail is the one before a '/'-free tail |
| TemplateHelpers.SplitAtLastSlash | src/main/java/com/github/kongchen/swagger/AbstractDocumentSource.java:214-220 | for prefix + "/" + tail with a '/'-free tail, the basename is tail and the parent is prefix |
| TemplateHelpers.ParentSlashBasename | src/main/java/com/github/kongchen/swagger/AbstractDocumentSource.java:233-237 | parent + "/" + basename rebuilds a text that holds a '/' |
| TemplateHelpers.BasenameIdempotent | src/main/java/com/github/kongchen/swagger/AbstractDocumentSource.java:214-220 | the basename of a basename is itself |
| TemplateHelpers.UrlParentShrinks | src/main/java/com/github/kongchen/swagger/AbstractDocumentSource.java:233-237 | the parent is never longer than the text and equals it exactly when the text has no '/' |
| OutputFiles.SplitResourcePath | src/main/java/com/github/kongchen/swagger/AbstractDocumentSource.java:151-160 | a sub-directory exactly when the path has a '/'; then subDir + "/" + fileName is the path; the file name never has a '/'; otherwise the whole path is the file name |
| OutputFiles.SplitJoin | src/main/java/com/github/kongchen/swagger/AbstractDocumentSource.java:151-160 | splitting then joining gives back the resource path |
| OutputFiles.JoinSplit | src/main/java/com/github/kongchen/swagger/AbstractDocumentSource.java:151-160 | joining then splitting gives back any target whose file name has no '/' |
| OutputFiles.SplitAgreesWithHelpers | src/main/java/com/github/kongchen/swagger/AbstractDocumentSource.java:151-154 | createFile's file name is the "basename" of the path and its sub-directory is getUrlParent of it |
| OutputFiles.IsStale | src/main/java/com/github/kongchen/swagger/AbstractDocumentSource.java:123 | endsWith("json"): a name is deleted exactly when it is some prefix followed by "json", with no dot required and case-sensitive |
| OutputFiles.CleanupOlds | src/main/java/com/github/kongchen/swagger/AbstractDocumentSource.java:120-128 | an unlistable directory is left alone; otherwise exactly the entries whose names end in "json" are deleted and all others remain |
| Examples.StatusCodesSortAsText | src/main/java/com/github/kongchen/swagger/AbstractDocumentSource.java:266-267 | "1000" < "200" < "404" < "500" under compareTo |
| Examples.IfEqOnMethodNames | src/main/java/com/github/kongchen/swagger/AbstractDocumentSource.java:203-207 | ifeq("GET", "GET") takes the main block; ifeq("GET", "POST"), a null value, a null parameter and a non-String parameter take the inverse block |
| Examples.ResponsesRebuiltInOrder | src/main/java/com/github/kongchen/swagger/AbstractDocumentSource.java:265-268 | responses 500, 200, 404 are rebuilt as 200, 404, 500, each with its own response |
| Examples.HelpersOnAPath | src/main/java/com/github/kongchen/swagger/AbstractDocumentSource.java:151-157 | "v1/pets.json" has basename "pets.json" and parent "v1" and is created as pets.json in v1 |
| Examples.FileWithoutDirectory | src/main/java/com/github/kongchen/swagger/AbstractDocumentSource.java:158-159 | "swagger.json" has no '/' and goes directly in the output directory |
| Examples.StaleNames | src/main/java/com/github/kongchen/swagger/AbstractDocumentSource.java:123 | "foojson" and "old.json" are deleted; "keep.txt" and "data.JSON" are kept |

## Left out

- toDocuments (lines 168-197): the template engine's compilation and rendering, the output stream and its UTF-8 writer, and `Utils.parseTemplateUrl`. These are I/O and a foreign library; `Utils` is not part of this model.
- The `join` and `lower` helpers (lines 224-225): they are the template library's own code.
- toSwaggerDocuments (lines 62-91): JSON serialization and directory creation, which are file-system I/O.
- loadOverridingModels (lines 93-118): JSON parsing of a class-path resource; its loop body does nothing with what it reads.
- writeInDirectory (lines 130-146): its body is commented out.
- createFile: the `mkdirs`, `createNewFile` and `delete` retry loop and the `File` objects are file-system effects. Only the split of the path is modelled. How `File` normalizes names, such as an empty sub-directory for a path that starts with '/', is not modelled.
- OutputFiles.CleanupOlds: the listing is a set of names, and `listFiles()` returning null is the directory's `listable` flag. A `delete()` that fails (its result is ignored by the source) is not modelled: every delete succeeds.
- TemplateHelpers.UrlParent: takes the text of the URL; `URL.toString()` is not modelled.
- TemplateHelpers.IfEq: a block called with no parameter at all is not modelled; the parameter is null, a String or another object.
- The reflective failures of reorderResponses (lines 269-274) cannot arise: the six methods are a closed datatype.
- Null response or path mappings, which would throw in `putAll`, are not modelled: a mapping is always a sequence.
- A null path key or status-code key, which a `LinkedHashMap` source allows, makes `TreeMap.put` throw a NullPointerException: the comparator calls `compareTo` on it (line 244), and the natural order rejects null (line 267). Keys are `JString`, never null, so this exception is not modelled.
- A null `Path` value makes `m.invoke(path)` (line 263) throw a NullPointerException. Path values are non-null `PathItem` references, so this exception is not modelled.
- ModelNormalizer.ReorderApis: requires `WellFormed`, meaning no repeated key in the paths or in any operation's responses. Every `java.util.Map` guarantees this.
- ModelNormalizer.PathItem: its slots are fixed references, since the normalizer never reassigns them; the operations they point to are mutable.
- Logging through `LOG` is advisory output and is left out.

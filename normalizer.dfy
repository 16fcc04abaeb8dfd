/**
 * The API-model normalizer of AbstractDocumentSource: reorderApis rebuilds
 * the document's path mapping as a tree map ordered by String.compareTo,
 * then, for every path, reorderResponses rebuilds the response mapping of
 * each of the six operation slots that holds an operation.
 */
module ModelNormalizer {
  import opened JavaString
  import opened TreeMaps

  /** The six operation slots of a path, closed over instead of looked up by reflection. */
  datatype HttpMethod = Get | Delete | Post | Put | Options | Patch

  /** The order in which reorderApis visits the slots of each path. */
  const MethodOrder: seq<HttpMethod> := [Get, Delete, Post, Put, Options, Patch]

  /** A response description; the normalizer only moves it, never looks inside. */
  datatype Response = Response(description: JString)

  class Operation {
    /** The status-code → response mapping, in iteration order. */
    var responses: seq<(JString, Response)>
  }

  /**
   * One path of the document: up to one operation per method, null where
   * absent. The normalizer never reassigns a slot, so the slots are fixed
   * references here; the operations they point to are mutable.
   */
  class PathItem {
    const get: Operation?
    const delete: Operation?
    const post: Operation?
    const put: Operation?
    const options: Operation?
    const patch: Operation?

    constructor (get: Operation?, delete: Operation?, post: Operation?,
                 put: Operation?, options: Operation?, patch: Operation?)
      ensures Slot(Get) == get && Slot(Delete) == delete && Slot(Post) == post
      ensures Slot(Put) == put && Slot(Options) == options && Slot(Patch) == patch
    {
      this.get, this.delete, this.post := get, delete, post;
      this.put, this.options, this.patch := put, options, patch;
    }

    /** The accessor named "get" + method. */
    function Slot(m: HttpMethod): Operation?
    {
      match m
      case Get => get
      case Delete => delete
      case Post => post
      case Put => put
      case Options => options
      case Patch => patch
    }
  }

  class Swagger {
    /** The path → PathItem mapping, in iteration order. */
    var paths: seq<(JString, PathItem)>
  }

  /** The operations held in the slots of one path item. */
  ghost function SlotsOf(item: PathItem): set<Operation>
  {
    set m | m in MethodOrder && item.Slot(m) != null :: item.Slot(m)
  }

  /** Every operation held in some slot of some path. */
  ghost function OperationsIn(paths: seq<(JString, PathItem)>): set<Operation>
  {
    if paths == [] then {}
    else OperationsIn(paths[..|paths| - 1]) + SlotsOf(paths[|paths| - 1].1)
  }

  lemma {:induction false} OperationsInMembers(paths: seq<(JString, PathItem)>, op: Operation)
    ensures op in OperationsIn(paths) <==> exists p :: p in paths && op in SlotsOf(p.1)
  {
    if paths != [] {
      var init := paths[..|paths| - 1];
      assert paths == init + [paths[|paths| - 1]];
      OperationsInMembers(init, op);
    }
  }

  lemma {:induction false} OperationsInPrefix(paths: seq<(JString, PathItem)>, n: nat)
    requires n <= |paths|
    ensures OperationsIn(paths[..n]) <= OperationsIn(paths)
  {
    if n < |paths| {
      OperationsInPrefix(paths[..|paths| - 1], n);
      assert paths[..|paths| - 1][..n] == paths[..n];
    } else {
      assert paths[..n] == paths;
    }
  }

  lemma SlotInOperations(paths: seq<(JString, PathItem)>, p: (JString, PathItem), m: HttpMethod)
    requires p in paths && p.1.Slot(m) != null
    ensures p.1.Slot(m) in OperationsIn(paths)
  {
    OperationsInMembers(paths, p.1.Slot(m));
  }

  /** The operations reachable from a path mapping do not depend on its order. */
  lemma OperationsInPermutation(a: seq<(JString, PathItem)>, b: seq<(JString, PathItem)>)
    requires multiset(a) == multiset(b)
    ensures OperationsIn(a) == OperationsIn(b)
  {
    forall op | op in OperationsIn(a) ensures op in OperationsIn(b) {
      OperationsInMembers(a, op);
      var p :| p in a && op in SlotsOf(p.1);
      assert p in multiset(b);
      OperationsInMembers(b, op);
    }
    forall op | op in OperationsIn(b) ensures op in OperationsIn(a) {
      OperationsInMembers(b, op);
      var p :| p in b && op in SlotsOf(p.1);
      assert p in multiset(a);
      OperationsInMembers(a, op);
    }
  }

  /** The document as a java.util.Map holds it: no path key twice, no status code twice. */
  ghost predicate WellFormed(swagger: Swagger)
    reads swagger, OperationsIn(swagger.paths)
  {
    && DistinctKeys(swagger.paths)
    && forall op :: op in OperationsIn(swagger.paths) ==> DistinctKeys(op.responses)
  }

  /** The normal form: paths and every operation's responses iterate in ascending key order. */
  ghost predicate Normalized(swagger: Swagger)
    reads swagger, OperationsIn(swagger.paths)
  {
    && Sorted(swagger.paths)
    && forall op :: op in OperationsIn(swagger.paths) ==> Sorted(op.responses)
  }

  /**
   * new TreeMap<>(comparator); putAll(entries): puts each entry in the
   * source's iteration order into an initially empty tree map.
   */
  method NewTreeMap<V>(entries: seq<(JString, V)>) returns (r: seq<(JString, V)>)
    ensures r == TreeMapOf(entries)
    ensures Sorted(r)
    ensures DistinctKeys(entries) ==> multiset(r) == multiset(entries)
  {
    r := [];
    for i := 0 to |entries|
      invariant r == TreeMapOf(entries[..i])
    {
      assert entries[..i + 1][..i] == entries[..i];
      r := PutEntry(r, entries[i].0, entries[i].1);
    }
    assert entries[..|entries|] == entries;
    if DistinctKeys(entries) {
      TreeMapOfIsPermutation(entries);
    }
  }

  /**
   * reorderResponses(path, method): a null slot is skipped; otherwise the
   * operation's responses are replaced by a tree map of the same entries.
   */
  method ReorderResponses(path: PathItem, m: HttpMethod)
    modifies path.Slot(m)
    ensures path.Slot(m) != null ==> path.Slot(m).responses == TreeMapOf(old(path.Slot(m).responses))
  {
    var op := path.Slot(m);
    if op == null {
      return;
    }
    var res := NewTreeMap(op.responses);
    op.responses := res;
  }

  /**
   * Progress of reorderApis over the operations ops, whose responses were
   * before[op] on entry: those in done are reordered, the others untouched.
   */
  ghost predicate Reordered(ops: set<Operation>, done: set<Operation>,
                            before: map<Operation, seq<(JString, Response)>>)
    reads ops
  {
    && ops <= before.Keys
    && done <= ops
    && forall op :: op in ops ==>
         op.responses == if op in done then TreeMapOf(before[op]) else before[op]
  }

  /** Every method of the closed set is one of the six that reorderApis visits. */
  lemma MethodListed(m: HttpMethod)
    ensures m in MethodOrder
  {
    assert MethodOrder[0] == Get && MethodOrder[1] == Delete && MethodOrder[2] == Post;
    assert MethodOrder[3] == Put && MethodOrder[4] == Options && MethodOrder[5] == Patch;
  }

  /** One call reorderResponses(path, m) of the inner loop, with the progress it makes. */
  method ReorderSlot(item: PathItem, m: HttpMethod, ghost ops: set<Operation>, ghost done: set<Operation>,
                     ghost before: map<Operation, seq<(JString, Response)>>)
    returns (ghost done': set<Operation>)
    requires SlotsOf(item) <= ops && Reordered(ops, done, before)
    modifies ops
    ensures Reordered(ops, done', before) && done <= done'
    ensures item.Slot(m) != null ==> item.Slot(m) in done'
    ensures done' == if item.Slot(m) != null then done + {item.Slot(m)} else done
  {
    var op := item.Slot(m);
    done' := done;
    if op != null {
      MethodListed(m);
      assert op in SlotsOf(item);
      TreeMapOfIdempotent(before[op]);
    }
    ReorderResponses(item, m);
    if op != null {
      done' := done + {op};
      forall o | o in ops
        ensures o.responses == if o in done' then TreeMapOf(before[o]) else before[o]
      {
      }
    }
  }

  /** The inner loop of reorderApis: reorderResponses(path, m) for each of the six methods. */
  method ReorderSlots(item: PathItem, ghost ops: set<Operation>, ghost done: set<Operation>,
                      ghost before: map<Operation, seq<(JString, Response)>>)
    returns (ghost done': set<Operation>)
    requires SlotsOf(item) <= ops && Reordered(ops, done, before)
    modifies ops
    ensures Reordered(ops, done', before) && done <= done' && SlotsOf(item) <= done'
    ensures done' == done + SlotsOf(item)
  {
    done' := done;
    for j := 0 to |MethodOrder|
      invariant Reordered(ops, done', before) && done <= done'
      invariant done' <= done + SlotsOf(item)
      invariant forall jj :: 0 <= jj < j && item.Slot(MethodOrder[jj]) != null ==> item.Slot(MethodOrder[jj]) in done'
    {
      MethodListed(MethodOrder[j]);
      done' := ReorderSlot(item, MethodOrder[j], ops, done', before);
    }
    forall op | op in SlotsOf(item) ensures op in done' {
      var m :| m in MethodOrder && item.Slot(m) == op;
      var jj :| 0 <= jj < |MethodOrder| && MethodOrder[jj] == m;
    }
  }

  /** The outer loop of reorderApis: the slots of every path, in the order of the paths. */
  method ReorderPaths(paths: seq<(JString, PathItem)>, ghost ops: set<Operation>,
                      ghost before: map<Operation, seq<(JString, Response)>>)
    returns (ghost done: set<Operation>)
    requires OperationsIn(paths) <= ops && Reordered(ops, {}, before)
    modifies ops
    ensures Reordered(ops, done, before) && OperationsIn(paths) <= done
    ensures done == OperationsIn(paths)
  {
    done := {};
    for i := 0 to |paths|
      invariant Reordered(ops, done, before)
      invariant OperationsIn(paths[..i]) <= done
      invariant done == OperationsIn(paths[..i])
    {
      assert paths[..i + 1][..i] == paths[..i];
      assert OperationsIn(paths[..i + 1]) == OperationsIn(paths[..i]) + SlotsOf(paths[i].1);
      assert OperationsIn(paths[..i + 1]) <= OperationsIn(paths) by {
        OperationsInPrefix(paths, i + 1);
      }
      done := ReorderSlots(paths[i].1, ops, done, before);
    }
    assert paths[..|paths|] == paths;
  }

  /**
   * reorderApis: the paths are replaced by a tree map of the same entries,
   * then every operation reachable from them has its responses reordered.
   * Operations shared between slots or paths are reordered more than once,
   * which changes nothing after the first time.
   */
  method ReorderApis(swagger: Swagger)
    requires WellFormed(swagger)
    modifies swagger, OperationsIn(swagger.paths)
    ensures swagger.paths == TreeMapOf(old(swagger.paths))
    ensures multiset(swagger.paths) == multiset(old(swagger.paths))
    ensures forall p, m :: p in old(swagger.paths) && p.1.Slot(m) != null ==>
              p.1.Slot(m).responses == TreeMapOf(old(p.1.Slot(m).responses))
              && multiset(p.1.Slot(m).responses) == multiset(old(p.1.Slot(m).responses))
    ensures Normalized(swagger) && WellFormed(swagger)
    ensures old(Normalized(swagger)) ==> swagger.paths == old(swagger.paths)
    ensures forall p, m :: p in old(swagger.paths) && p.1.Slot(m) != null && old(Sorted(p.1.Slot(m).responses)) ==>
              p.1.Slot(m).responses == old(p.1.Slot(m).responses)
  {
    ghost var ops := OperationsIn(swagger.paths);
    ghost var before := map op | op in ops :: op.responses;
    assert Reordered(ops, {}, before);
    var sorted := NewTreeMap(swagger.paths);
    OperationsInPermutation(sorted, swagger.paths);
    swagger.paths := sorted;

    ghost var done := ReorderPaths(sorted, ops, before);
    assert done == ops;
    forall p, m | p in old(swagger.paths) && p.1.Slot(m) != null
      ensures p.1.Slot(m).responses == TreeMapOf(old(p.1.Slot(m).responses))
      ensures multiset(p.1.Slot(m).responses) == multiset(old(p.1.Slot(m).responses))
      ensures old(Sorted(p.1.Slot(m).responses)) ==> p.1.Slot(m).responses == old(p.1.Slot(m).responses)
    {
      var op := p.1.Slot(m);
      SlotInOperations(old(swagger.paths), p, m);
      assert before[op] == old(op.responses);
      TreeMapOfIsPermutation(old(op.responses));
      if old(Sorted(op.responses)) {
        TreeMapOfSorted(old(op.responses));
      }
    }
    TreeMapOfIsPermutation(old(swagger.paths));
    if old(Sorted(swagger.paths)) {
      TreeMapOfSorted(old(swagger.paths));
    }
    SortedHasDistinctKeys(swagger.paths);
    forall op | op in ops ensures DistinctKeys(op.responses) {
      SortedHasDistinctKeys(op.responses);
    }
  }
}

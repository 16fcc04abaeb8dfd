/**
 * The file-name rules of the output step: where createFile puts a file
 * given a '/'-separated relative resource path, and which entries of the
 * output directory cleanupOlds deletes.
 */
module OutputFiles {
  import opened Wrappers
  import opened JavaString
  import opened TemplateHelpers

  /**
   * Where createFile places its file: in the sub-directory subDir of the
   * output directory when there is one, else directly in it.
   */
  datatype Target = Target(subDir: Option<JString>, fileName: JString)

  /** createFile: split the resource path at its last '/', if any. */
  function SplitResourcePath(path: JString): (t: Target)
    ensures t.subDir.Some? <==> Slash in path
    ensures Slash !in t.fileName
    ensures t.subDir.Some? ==> t.subDir.value + [Slash] + t.fileName == path
    ensures t.subDir.None? ==> t.fileName == path
  {
    var i := LastIndexOf(path, Slash);
    if i != -1 then
      assert path == path[..i] + [Slash] + path[i + 1..];
      Target(Some(path[..i]), path[i + 1..])
    else
      Target(None, path)
  }

  /** The relative path a target stands for. */
  function TargetPath(t: Target): JString
  {
    match t.subDir
    case None => t.fileName
    case Some(dir) => dir + [Slash] + t.fileName
  }

  /** Splitting and re-joining gives back the resource path. */
  lemma SplitJoin(path: JString)
    ensures TargetPath(SplitResourcePath(path)) == path
  {
  }

  /** Joining and re-splitting gives back the target, for any file name without '/'. */
  lemma JoinSplit(t: Target)
    requires Slash !in t.fileName
    ensures SplitResourcePath(TargetPath(t)) == t
  {
    if t.subDir.Some? {
      SplitAtLastSlash(t.subDir.value, t.fileName);
    }
  }

  /** createFile splits exactly where the "basename" helper and getUrlParent do. */
  lemma SplitAgreesWithHelpers(path: JString)
    ensures Some(SplitResourcePath(path).fileName) == Basename(Some(path))
    ensures SplitResourcePath(path).subDir.Some? ==> SplitResourcePath(path).subDir == UrlParent(Some(path))
  {
  }

  /** The suffix "json" that cleanupOlds looks for, as code units. */
  const JsonSuffix: JString := [0x6A, 0x73, 0x6F, 0x6E]

  /**
   * f.getName().endsWith("json"): the names cleanupOlds deletes are exactly
   * those of the form prefix + "json"; no dot is required, and the match is
   * case-sensitive.
   */
  predicate IsStale(name: JString)
    ensures IsStale(name) <==> exists prefix :: name == prefix + JsonSuffix
  {
    var r := EndsWith(name, JsonSuffix);
    assert r ==> name == name[..|name| - 4] + JsonSuffix;
    assert forall prefix :: name == prefix + JsonSuffix ==> name[|name| - 4..] == JsonSuffix;
    r
  }

  /** The output directory; listFiles() is null when it cannot be listed. */
  class Directory {
    var names: set<JString>
    const listable: bool

    constructor (names: set<JString>, listable: bool)
      ensures this.names == names && this.listable == listable
    {
      this.names := names;
      this.listable := listable;
    }
  }

  /** The entries cleanupOlds leaves in a listable directory. */
  ghost function Kept(names: set<JString>): set<JString>
  {
    set x | x in names && !IsStale(x)
  }

  /**
   * cleanupOlds: when the directory can be listed, every entry whose name
   * ends in "json" is deleted, in the listing's (unspecified) order.
   */
  method CleanupOlds(dir: Directory)
    modifies dir
    ensures dir.names == if dir.listable then Kept(old(dir.names)) else old(dir.names)
    ensures dir.names <= old(dir.names)
    ensures forall x :: x in old(dir.names) && x !in dir.names ==> IsStale(x)
  {
    if !dir.listable {
      return;
    }
    ghost var before := dir.names;
    var remaining := dir.names;
    while remaining != {}
      invariant remaining <= before
      invariant dir.names == set x | x in before && (x in remaining || !IsStale(x))
      decreases remaining
    {
      var f :| f in remaining;
      if IsStale(f) {
        dir.names := dir.names - {f};
      }
      remaining := remaining - {f};
    }
  }
}

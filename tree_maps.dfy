/**
 * A java.util.TreeMap keyed by strings under String.compareTo, given by its
 * abstract value: the sequence of (key, value) entries in the order the map
 * iterates them. A well-formed tree map iterates its keys in strictly
 * ascending order.
 */
module TreeMaps {
  import opened JavaString

  /** Keys strictly ascending under compareTo: the tree map's iteration order. */
  ghost predicate Sorted<V>(m: seq<(JString, V)>)
  {
    forall i, j {:trigger Less(m[i].0, m[j].0)} :: 0 <= i < j < |m| ==> Less(m[i].0, m[j].0)
  }

  /** No key occurs twice: true of the entries of any java.util.Map. */
  ghost predicate DistinctKeys<V>(m: seq<(JString, V)>)
  {
    forall i, j :: 0 <= i < j < |m| ==> m[i].0 != m[j].0
  }

  ghost function Keys<V>(m: seq<(JString, V)>): set<JString>
  {
    set p | p in m :: p.0
  }

  lemma SortedHasDistinctKeys<V>(m: seq<(JString, V)>)
    requires Sorted(m)
    ensures DistinctKeys(m)
  {
    forall i, j | 0 <= i < j < |m| ensures m[i].0 != m[j].0 {
      LessIrreflexive(m[i].0);
    }
  }

  /**
   * TreeMap.put: the entry takes its place in key order; an entry whose key
   * compares equal to k has its value replaced.
   */
  function PutEntry<V>(m: seq<(JString, V)>, k: JString, v: V): (r: seq<(JString, V)>)
    requires Sorted(m)
    ensures Sorted(r)
    decreases |m|, 0
  {
    if m == [] then [(k, v)]
    else
      var c := CompareTo(k, m[0].0);
      CompareToAntisymmetric(k, m[0].0);
      if c < 0 then
        PutLessThanAll(m, k, v);
        [(k, v)] + m
      else if c == 0 then
        [(k, v)] + m[1..]
      else
        var rest := PutEntry(m[1..], k, v);
        PutEntryContents(m[1..], k, v);
        assert forall p :: p in rest ==> Less(m[0].0, p.0);
        [m[0]] + rest
  }

  /** put adds (k, v), drops any other entry under key k, and keeps all the rest. */
  lemma {:induction false} PutEntryContents<V>(m: seq<(JString, V)>, k: JString, v: V)
    requires Sorted(m)
    ensures (k, v) in PutEntry(m, k, v)
    ensures forall p :: p in PutEntry(m, k, v) ==> p == (k, v) || (p in m && p.0 != k)
    ensures forall p :: p in m && p.0 != k ==> p in PutEntry(m, k, v)
    decreases |m|, 1
  {
    if m != [] {
      if CompareTo(k, m[0].0) == 0 {
        assert forall p :: p in m[1..] ==> p.0 != k by {
          SortedHasDistinctKeys(m);
        }
      } else if CompareTo(k, m[0].0) > 0 {
        PutEntryContents(m[1..], k, v);
        assert PutEntry(m, k, v) == [m[0]] + PutEntry(m[1..], k, v);
        assert m == [m[0]] + m[1..];
      } else {
        CompareToAntisymmetric(k, m[0].0);
        PutLessThanAll(m, k, v);
        SortedHasDistinctKeys([(k, v)] + m);
        assert forall j :: 0 <= j < |m| ==> ([(k, v)] + m)[j + 1] == m[j];
      }
    }
  }

  /** A key below the first key of a sorted sequence is below all of its keys. */
  lemma PutLessThanAll<V>(m: seq<(JString, V)>, k: JString, v: V)
    requires Sorted(m) && m != [] && Less(k, m[0].0)
    ensures Sorted([(k, v)] + m)
  {
    forall j | 1 <= j < |m| ensures Less(k, m[j].0) {
      LessTransitive(k, m[0].0, m[j].0);
    }
  }

  /**
   * new TreeMap(); putAll(entries): the entries are put one by one in the
   * order the source map iterates them.
   */
  function TreeMapOf<V>(entries: seq<(JString, V)>): (r: seq<(JString, V)>)
    ensures Sorted(r)
  {
    if entries == [] then []
    else PutEntry(TreeMapOf(entries[..|entries| - 1]), entries[|entries| - 1].0, entries[|entries| - 1].1)
  }

  /** The tree map holds no entry the source did not, and every key of the source. */
  lemma {:induction false} TreeMapOfEntries<V>(entries: seq<(JString, V)>)
    ensures forall p :: p in TreeMapOf(entries) ==> p in entries
    ensures Keys(TreeMapOf(entries)) == Keys(entries)
  {
    if entries != [] {
      var init := entries[..|entries| - 1];
      var last := entries[|entries| - 1];
      assert entries == init + [last];
      TreeMapOfEntries(init);
      var r := TreeMapOf(entries);
      PutEntryContents(TreeMapOf(init), last.0, last.1);
      assert Keys(r) == Keys(TreeMapOf(init)) + {last.0} by {
        forall x | x in Keys(TreeMapOf(init)) + {last.0} ensures x in Keys(r) {
          if x != last.0 {
            var p :| p in TreeMapOf(init) && p.0 == x;
            assert p in r;
          }
        }
      }
    }
  }

  /** Putting a key that is absent adds exactly one entry and keeps the others. */
  lemma {:induction false} PutFresh<V>(m: seq<(JString, V)>, k: JString, v: V)
    requires Sorted(m) && k !in Keys(m)
    ensures multiset(PutEntry(m, k, v)) == multiset(m) + multiset{(k, v)}
  {
    if m != [] {
      assert m[0] in m;
      if !Less(k, m[0].0) {
        assert Keys(m[1..]) <= Keys(m) by {
          forall x | x in Keys(m[1..]) ensures x in Keys(m) {
            var p :| p in m[1..] && p.0 == x;
            assert p in m;
          }
        }
        PutFresh(m[1..], k, v);
        assert m == [m[0]] + m[1..];
      }
    }
  }

  /**
   * With distinct keys (a java.util.Map), the tree map holds exactly the
   * source's entries, each once: only their order changes.
   */
  lemma {:induction false} TreeMapOfIsPermutation<V>(entries: seq<(JString, V)>)
    requires DistinctKeys(entries)
    ensures multiset(TreeMapOf(entries)) == multiset(entries)
  {
    if entries != [] {
      var init := entries[..|entries| - 1];
      var last := entries[|entries| - 1];
      assert entries == init + [last];
      TreeMapOfIsPermutation(init);
      assert last.0 !in Keys(init) by {
        forall p | p in init ensures p.0 != last.0 {
          var i :| 0 <= i < |init| && init[i] == p;
        }
      }
      TreeMapOfEntries(init);
      PutFresh(TreeMapOf(init), last.0, last.1);
    }
  }

  /** Putting a key above every present key appends it. */
  lemma {:induction false} PutAbove<V>(m: seq<(JString, V)>, k: JString, v: V)
    requires Sorted(m)
    requires forall p :: p in m ==> Less(p.0, k)
    ensures PutEntry(m, k, v) == m + [(k, v)]
  {
    if m != [] {
      assert m[0] in m;
      LessTrichotomous(m[0].0, k);
      CompareToAntisymmetric(k, m[0].0);
      PutAbove(m[1..], k, v);
      assert m == [m[0]] + m[1..];
    }
  }

  /** A map that already iterates in key order is rebuilt unchanged. */
  lemma {:induction false} TreeMapOfSorted<V>(entries: seq<(JString, V)>)
    requires Sorted(entries)
    ensures TreeMapOf(entries) == entries
  {
    if entries != [] {
      var init := entries[..|entries| - 1];
      var last := entries[|entries| - 1];
      assert entries == init + [last];
      TreeMapOfSorted(init);
      forall p | p in init ensures Less(p.0, last.0) {
        var i :| 0 <= i < |init| && init[i] == p;
      }
      PutAbove(init, last.0, last.1);
    }
  }

  /** Rebuilding a rebuilt map changes nothing. */
  lemma TreeMapOfIdempotent<V>(entries: seq<(JString, V)>)
    ensures TreeMapOf(TreeMapOf(entries)) == TreeMapOf(entries)
  {
    TreeMapOfSorted(TreeMapOf(entries));
  }

  /**
   * Two sorted sequences holding the same entries are equal: the key order
   * leaves no freedom in how a map's entries are arranged.
   */
  lemma {:induction false} SortedArrangementUnique<V>(a: seq<(JString, V)>, b: seq<(JString, V)>)
    requires Sorted(a) && Sorted(b)
    requires forall p :: p in a <==> p in b
    ensures a == b
  {
    assert a != [] ==> a[0] in b;
    assert b != [] ==> b[0] in a;
    if a != [] && b != [] {
      assert a[0] in b && b[0] in a;
      var i :| 0 <= i < |b| && b[i] == a[0];
      var j :| 0 <= j < |a| && a[j] == b[0];
      if i != 0 {
        assert j != 0 by { LessIrreflexive(a[0].0); }
        LessTrichotomous(a[0].0, b[0].0);
        assert false;
      }
      assert a == [a[0]] + a[1..] && b == [b[0]] + b[1..];
      forall p ensures p in a[1..] <==> p in b[1..] {
        if p in a[1..] {
          var x :| 0 <= x < |a| - 1 && a[1..][x] == p;
          assert Less(a[0].0, a[x + 1].0);
          assert p != a[0] by { LessIrreflexive(a[0].0); }
          assert p in b;
        }
        if p in b[1..] {
          var y :| 0 <= y < |b| - 1 && b[1..][y] == p;
          assert Less(b[0].0, b[y + 1].0);
          assert p != b[0] by { LessIrreflexive(b[0].0); }
          assert p in a;
        }
      }
      SortedArrangementUnique(a[1..], b[1..]);
      assert a == [a[0]] + a[1..] && b == [b[0]] + b[1..];
    }
  }

  /**
   * The normal form does not depend on the source map's iteration order:
   * two maps with the same entries are rebuilt identically.
   */
  lemma TreeMapOfOrderIndependent<V>(e1: seq<(JString, V)>, e2: seq<(JString, V)>)
    requires DistinctKeys(e1) && multiset(e1) == multiset(e2)
    ensures TreeMapOf(e1) == TreeMapOf(e2)
  {
    PermutationKeepsDistinctKeys(e1, e2);
    TreeMapOfIsPermutation(e1);
    TreeMapOfIsPermutation(e2);
    forall p ensures p in TreeMapOf(e1) <==> p in TreeMapOf(e2) {
      assert p in TreeMapOf(e1) <==> p in multiset(TreeMapOf(e1));
      assert p in TreeMapOf(e2) <==> p in multiset(TreeMapOf(e2));
    }
    SortedArrangementUnique(TreeMapOf(e1), TreeMapOf(e2));
  }

  /** Rearranging the entries of a map cannot make two keys equal. */
  lemma PermutationKeepsDistinctKeys<V>(e1: seq<(JString, V)>, e2: seq<(JString, V)>)
    requires DistinctKeys(e1) && multiset(e1) == multiset(e2)
    ensures DistinctKeys(e2)
  {
    forall i, j | 0 <= i < j < |e2| ensures e2[i].0 != e2[j].0 {
      if e2[i].0 == e2[j].0 {
        assert e2[i] in multiset(e1) && e2[j] in multiset(e1);
        var x :| 0 <= x < |e1| && e1[x] == e2[i];
        var y :| 0 <= y < |e1| && e1[y] == e2[j];
        if x == y {
          // the entry occurs twice in e2 but once in e1
          assert e2 == e2[..i] + [e2[i]] + e2[i + 1..j] + [e2[j]] + e2[j + 1..];
          assert multiset(e2)[e2[i]] >= 2;
          CountOnce(e1, x);
          assert false;
        } else {
          assert false;
        }
      }
    }
  }

  /** In a sequence with distinct keys every entry occurs once. */
  lemma CountOnce<V>(e: seq<(JString, V)>, x: int)
    requires DistinctKeys(e) && 0 <= x < |e|
    ensures multiset(e)[e[x]] == 1
  {
    assert e == e[..x] + [e[x]] + e[x + 1..];
    assert e[x] !in e[..x] by {
      forall k | 0 <= k < x ensures e[k] != e[x] { }
    }
    assert e[x] !in e[x + 1..] by {
      forall k | x < k < |e| ensures e[k] != e[x] { }
    }
    assert multiset(e[..x])[e[x]] == 0;
    assert multiset(e[x + 1..])[e[x]] == 0;
  }
}

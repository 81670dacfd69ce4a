/**
 * java.util.LinkedHashSet as a sequence without duplicates, for elements whose equals
 * compares a key: `key(x) == key(y)` exactly when `x.equals(y)`. Iteration order is
 * insertion order; adding an element that is already present keeps the one that is there.
 */
module LinkedSets {

  /** The keys of the elements. */
  function Keys<T, K(==)>(s: seq<T>, key: T -> K): (r: set<K>)
    ensures forall i :: 0 <= i < |s| ==> key(s[i]) in r
    decreases |s|
  {
    if |s| == 0 then {} else Keys(s[..|s| - 1], key) + {key(s[|s| - 1])}
  }

  /** Every key is the key of some element. */
  lemma {:induction false} KeysWitness<T, K>(s: seq<T>, k: K, key: T -> K)
    requires k in Keys(s, key)
    ensures exists i :: 0 <= i < |s| && key(s[i]) == k
    decreases |s|
  {
    var n := |s| - 1;
    if key(s[n]) != k {
      KeysWitness(s[..n], k, key);
      var i :| 0 <= i < n && key(s[..n][i]) == k;
      assert s[..n][i] == s[i];
    }
  }

  /** No two elements are equal. */
  predicate NoDup<T, K(==)>(s: seq<T>, key: T -> K) {
    forall i, j :: 0 <= i < j < |s| ==> key(s[i]) != key(s[j])
  }

  /** add(x): appended unless an equal element is present. */
  function Add<T, K(==)>(s: seq<T>, x: T, key: T -> K): seq<T> {
    if key(x) in Keys(s, key) then s else s + [x]
  }

  /** addAll(w): w's elements added one after the other, in order. */
  function AddAll<T, K(==)>(s: seq<T>, w: seq<T>, key: T -> K): (r: seq<T>)
    ensures |s| <= |r| && r[..|s|] == s
    decreases |w|
  {
    if |w| == 0 then s else Add(AddAll(s, w[..|w| - 1], key), w[|w| - 1], key)
  }

  /** Where k first occurs in w. */
  function FirstIndex<T, K(==)>(w: seq<T>, k: K, key: T -> K): (i: nat)
    requires k in Keys(w, key)
    ensures i < |w| && key(w[i]) == k
    ensures forall j :: 0 <= j < i ==> key(w[j]) != k
    decreases |w|
  {
    if key(w[0]) == k then 0
    else
      assert k in Keys(w[1..], key) by {
        KeysWitness(w, k, key);
        var i :| 0 <= i < |w| && key(w[i]) == k;
        assert w[1..][i - 1] == w[i];
      }
      1 + FirstIndex(w[1..], k, key)
  }

  lemma KeysSnoc<T, K>(s: seq<T>, x: T, key: T -> K)
    ensures Keys(s + [x], key) == Keys(s, key) + {key(x)}
  {
    assert (s + [x])[..|s|] == s;
  }

  lemma {:induction false} KeysAppend<T, K>(s: seq<T>, t: seq<T>, key: T -> K)
    ensures Keys(s + t, key) == Keys(s, key) + Keys(t, key)
  {
    forall k | k in Keys(s + t, key) ensures k in Keys(s, key) + Keys(t, key) {
      KeysWitness(s + t, k, key);
      var i :| 0 <= i < |s + t| && key((s + t)[i]) == k;
      if i >= |s| { assert t[i - |s|] == (s + t)[i]; }
    }
    forall k | k in Keys(s, key) + Keys(t, key) ensures k in Keys(s + t, key) {
      if k in Keys(s, key) {
        KeysWitness(s, k, key);
        var i :| 0 <= i < |s| && key(s[i]) == k;
        assert (s + t)[i] == s[i];
      } else {
        KeysWitness(t, k, key);
        var i :| 0 <= i < |t| && key(t[i]) == k;
        assert (s + t)[|s| + i] == t[i];
      }
    }
  }

  /** The first occurrence of a key already in a prefix is where it was in the prefix. */
  lemma FirstIndexPrefix<T, K>(w: seq<T>, n: nat, k: K, key: T -> K)
    requires n <= |w| && k in Keys(w[..n], key)
    ensures k in Keys(w, key) && FirstIndex(w, k, key) == FirstIndex(w[..n], k, key)
  {
    var i := FirstIndex(w[..n], k, key);
    assert w[i] == w[..n][i];
    assert forall j :: 0 <= j < i ==> w[j] == w[..n][j];
  }

  /** The first occurrence of a key that the prefix lacks is the appended element. */
  lemma FirstIndexLast<T, K>(w: seq<T>, key: T -> K)
    requires |w| > 0 && key(w[|w| - 1]) !in Keys(w[..|w| - 1], key)
    ensures FirstIndex(w, key(w[|w| - 1]), key) == |w| - 1
  {
    var n := |w| - 1;
    assert forall j :: 0 <= j < n ==> w[j] == w[..n][j];
  }

  /** add(x) adds x's key. */
  lemma AddKeys<T, K>(s: seq<T>, x: T, key: T -> K)
    ensures Keys(Add(s, x, key), key) == Keys(s, key) + {key(x)}
  {
    if key(x) !in Keys(s, key) {
      KeysSnoc(s, x, key);
    }
  }

  /** addAll adds the keys of w and only those. */
  lemma {:induction false} AddAllKeys<T, K>(s: seq<T>, w: seq<T>, key: T -> K)
    ensures Keys(AddAll(s, w, key), key) == Keys(s, key) + Keys(w, key)
    decreases |w|
  {
    if |w| > 0 {
      var n := |w| - 1;
      assert w == w[..n] + [w[n]];
      AddAllKeys(s, w[..n], key);
      AddKeys(AddAll(s, w[..n], key), w[n], key);
      KeysSnoc(w[..n], w[n], key);
    }
  }

  /** add never introduces a duplicate. */
  lemma AddNoDup<T, K>(s: seq<T>, x: T, key: T -> K)
    requires NoDup(s, key)
    ensures NoDup(Add(s, x, key), key)
  {
  }

  /** addAll never introduces a duplicate. */
  lemma {:induction false} AddAllNoDup<T, K>(s: seq<T>, w: seq<T>, key: T -> K)
    requires NoDup(s, key)
    ensures NoDup(AddAll(s, w, key), key)
    decreases |w|
  {
    if |w| > 0 {
      var n := |w| - 1;
      AddAllNoDup(s, w[..n], key);
      AddNoDup(AddAll(s, w[..n], key), w[n], key);
    }
  }

  /** Each element addAll adds is new to s, and its key is one of w's. */
  lemma {:induction false} AddAllAddsNew<T, K>(s: seq<T>, w: seq<T>, key: T -> K)
    ensures var r := AddAll(s, w, key);
      forall i :: |s| <= i < |r| ==> key(r[i]) !in Keys(s, key) && key(r[i]) in Keys(w, key)
    decreases |w|
  {
    if |w| > 0 {
      var n := |w| - 1;
      var r' := AddAll(s, w[..n], key);
      AddAllAddsNew(s, w[..n], key);
      AddAllKeys(s, w[..n], key);
      assert w == w[..n] + [w[n]];
      KeysSnoc(w[..n], w[n], key);
    }
  }

  /** Each element addAll adds is the first occurrence in w of its key. */
  lemma {:induction false} AddAllAddsFirst<T, K>(s: seq<T>, w: seq<T>, key: T -> K)
    ensures var r := AddAll(s, w, key); forall i :: |s| <= i < |r| ==> key(r[i]) in Keys(w, key)
    ensures var r := AddAll(s, w, key); forall i :: |s| <= i < |r| ==> r[i] == w[FirstIndex(w, key(r[i]), key)]
    decreases |w|
  {
    var r := AddAll(s, w, key);
    if |w| > 0 {
      var n := |w| - 1;
      var w', x := w[..n], w[n];
      var r' := AddAll(s, w', key);
      AddAllAddsFirst(s, w', key);
      assert forall i :: |s| <= i < |AddAll(s, w', key)| ==> key(AddAll(s, w', key)[i]) in Keys(w', key);
      assert w == w' + [x];
      KeysSnoc(w', x, key);
      forall i | |s| <= i < |r'|
        ensures key(r'[i]) in Keys(w', key) && key(r'[i]) in Keys(w, key)
        ensures FirstIndex(w, key(r'[i]), key) == FirstIndex(w', key(r'[i]), key)
      {
        FirstIndexPrefix(w, n, key(r'[i]), key);
      }
      if key(x) !in Keys(r', key) {
        AddAllKeys(s, w', key);
        FirstIndexLast(w, key);
        assert r == r' + [x];
      }
    }
  }

  /** The elements added from a prefix of w keep, in w, the first index they have in the prefix. */
  lemma PrefixFirstIndexes<T, K>(s: seq<T>, w: seq<T>, n: nat, key: T -> K)
    requires n <= |w|
    ensures var r := AddAll(s, w[..n], key);
      forall i :: |s| <= i < |r| ==>
        key(r[i]) in Keys(w[..n], key) && key(r[i]) in Keys(w, key) && FirstIndex(w, key(r[i]), key) == FirstIndex(w[..n], key(r[i]), key)
  {
    AddAllAddsNew(s, w[..n], key);
    assert forall i :: |s| <= i < |AddAll(s, w[..n], key)| ==> key(AddAll(s, w[..n], key)[i]) in Keys(w[..n], key);
    forall i | |s| <= i < |AddAll(s, w[..n], key)|
      ensures key(AddAll(s, w[..n], key)[i]) in Keys(w, key)
      ensures FirstIndex(w, key(AddAll(s, w[..n], key)[i]), key) == FirstIndex(w[..n], key(AddAll(s, w[..n], key)[i]), key)
    {
      FirstIndexPrefix(w, n, key(AddAll(s, w[..n], key)[i]), key);
    }
  }

  /** The added elements come in the order of their first occurrences in w. */
  lemma {:induction false} AddAllKeepsOrder<T, K>(s: seq<T>, w: seq<T>, key: T -> K)
    ensures var r := AddAll(s, w, key); forall i :: |s| <= i < |r| ==> key(r[i]) in Keys(w, key)
    ensures var r := AddAll(s, w, key);
      forall i, j :: |s| <= i < j < |r| ==> FirstIndex(w, key(r[i]), key) < FirstIndex(w, key(r[j]), key)
    decreases |w|
  {
    var r := AddAll(s, w, key);
    AddAllAddsNew(s, w, key);
    if |w| > 0 {
      var n := |w| - 1;
      var r' := AddAll(s, w[..n], key);
      AddAllKeepsOrder(s, w[..n], key);
      PrefixFirstIndexes(s, w, n, key);
      if key(w[n]) !in Keys(r', key) {
        AddAllKeys(s, w[..n], key);
        FirstIndexLast(w, key);
        assert r == r' + [w[n]];
        forall i | |s| <= i < |r'| ensures FirstIndex(w, key(r[i]), key) < n {
          assert r[i] == r'[i];
        }
      } else {
        assert r == r';
      }
    }
  }

  /**
   * Deduplicating a list whose elements all satisfy ok gives a set of elements that satisfy ok,
   * no two equal, each the first occurrence of its key in the list, in list order, with every key of the list.
   */
  lemma DedupedSpec<T, K>(w: seq<T>, key: T -> K, ok: T -> bool)
    requires forall i :: 0 <= i < |w| ==> ok(w[i])
    ensures var r := AddAll([], w, key);
      && NoDup(r, key)
      && Keys(r, key) == Keys(w, key)
      && (forall i :: 0 <= i < |r| ==> ok(r[i]))
      && (forall i :: 0 <= i < |r| ==> key(r[i]) in Keys(w, key) && r[i] == w[FirstIndex(w, key(r[i]), key)])
      && (forall i, j :: 0 <= i < j < |r| ==> FirstIndex(w, key(r[i]), key) < FirstIndex(w, key(r[j]), key))
  {
    var r := AddAll([], w, key);
    AddAllNoDup([], w, key);
    AddAllKeys([], w, key);
    AddAllAddsFirst([], w, key);
    AddAllKeepsOrder([], w, key);
    forall i | 0 <= i < |r| ensures ok(r[i]) {
      assert r[i] == w[FirstIndex(w, key(r[i]), key)];
    }
  }

  /** Deduplicating a non-empty list keeps its first element first. */
  lemma {:induction false} AddAllHead<T, K>(w: seq<T>, key: T -> K)
    requires |w| > 0
    ensures |AddAll([], w, key)| > 0 && AddAll([], w, key)[0] == w[0]
    decreases |w|
  {
    var n := |w| - 1;
    if n > 0 {
      assert w[..n][0] == w[0];
      AddAllHead(w[..n], key);
    } else {
      assert w[..n] == [];
    }
  }

  /** Adding all of w to a set adds what adding w's own deduplication adds. */
  lemma {:induction false} AddAllOfAddAll<T, K>(s: seq<T>, w: seq<T>, key: T -> K)
    ensures AddAll(s, AddAll([], w, key), key) == AddAll(s, w, key)
    decreases |w|
  {
    if |w| > 0 {
      var n := |w| - 1;
      var w', x := w[..n], w[n];
      var d' := AddAll([], w', key);
      AddAllOfAddAll(s, w', key);
      AddAllKeys([], w', key);
      AddAllKeys(s, w', key);
      assert AddAll(s, w, key) == Add(AddAll(s, d', key), x, key);
      if key(x) in Keys(d', key) {
        assert AddAll([], w, key) == d';
      } else {
        assert AddAll([], w, key) == d' + [x];
        assert (d' + [x])[..|d'|] == d';
        assert AddAll(s, d' + [x], key) == Add(AddAll(s, d', key), x, key);
      }
    }
  }

  /** Two addAll calls in a row add the concatenation. */
  lemma {:induction false} AddAllAppend<T, K>(s: seq<T>, u: seq<T>, v: seq<T>, key: T -> K)
    ensures AddAll(AddAll(s, u, key), v, key) == AddAll(s, u + v, key)
    decreases |v|
  {
    if |v| == 0 {
      assert u + v == u;
    } else {
      var n := |v| - 1;
      AddAllAppend(s, u, v[..n], key);
      assert (u + v)[..|u + v| - 1] == u + v[..n];
      assert (u + v)[|u + v| - 1] == v[n];
    }
  }

  /** One more projection added to a set built by addAll: the walks are concatenated. */
  lemma AddAllDedupedStep<T, K>(acc: seq<T>, start: seq<T>, prev: seq<T>, sub: seq<T>, key: T -> K)
    requires acc == AddAll(start, prev, key)
    ensures AddAll(acc, AddAll([], sub, key), key) == AddAll(start, prev + sub, key)
  {
    AddAllOfAddAll(acc, sub, key);
    AddAllAppend(start, prev, sub, key);
  }

  // ---------------------------------------------------------------------------
  // Remove and re-add

  /** remove(k): the element equal to k, if any, taken out; the others keep their order. */
  function Remove<T, K(==)>(s: seq<T>, k: K, key: T -> K): (r: seq<T>)
    ensures forall i :: 0 <= i < |r| ==> key(r[i]) != k
    ensures Keys(r, key) == Keys(s, key) - {k}
    decreases |s|
  {
    if |s| == 0 then []
    else
      var front := Remove(s[..|s| - 1], k, key);
      var x := s[|s| - 1];
      KeysSnoc(s[..|s| - 1], x, key);
      assert s == s[..|s| - 1] + [x];
      if key(x) == k then front else (KeysSnoc(front, x, key); front + [x])
  }

  lemma {:induction false} RemoveNoDup<T, K>(s: seq<T>, k: K, key: T -> K)
    ensures NoDup(s, key) ==> NoDup(Remove(s, k, key), key)
    decreases |s|
  {
    if |s| > 0 && NoDup(s, key) {
      var front := Remove(s[..|s| - 1], k, key);
      RemoveNoDup(s[..|s| - 1], k, key);
      var x := s[|s| - 1];
      if key(x) != k {
        forall i | 0 <= i < |front| ensures key(front[i]) != key(x) {
          assert key(front[i]) in Keys(s[..|s| - 1], key);
          KeysWitness(s[..|s| - 1], key(front[i]), key);
          var j :| 0 <= j < |s| - 1 && key(s[..|s| - 1][j]) == key(front[i]);
          assert s[..|s| - 1][j] == s[j];
        }
      }
    }
  }

  /**
   * The add-or-remove-and-re-add of ClassLoaderExperiment.projectDependencies: x ends up last,
   * an equal element that was there is gone, and the set stays free of duplicates.
   */
  function Upsert<T, K(==)>(s: seq<T>, x: T, key: T -> K): (r: seq<T>)
    ensures |r| > 0 && r[|r| - 1] == x
    ensures Keys(r, key) == Keys(s, key) + {key(x)}
    ensures NoDup(s, key) ==> NoDup(r, key)
  {
    var front := Remove(s, key(x), key);
    KeysSnoc(front, x, key);
    RemoveNoDup(s, key(x), key);
    front + [x]
  }

  /** Upserting an element that is absent is add. */
  lemma UpsertAbsent<T, K>(s: seq<T>, x: T, key: T -> K)
    requires key(x) !in Keys(s, key)
    ensures Upsert(s, x, key) == Add(s, x, key)
  {
    RemoveAbsent(s, key(x), key);
  }

  lemma {:induction false} RemoveAbsent<T, K>(s: seq<T>, k: K, key: T -> K)
    requires k !in Keys(s, key)
    ensures Remove(s, k, key) == s
    decreases |s|
  {
    if |s| > 0 {
      var n := |s| - 1;
      assert key(s[n]) in Keys(s, key);
      RemoveAbsent(s[..n], k, key);
      assert s == s[..n] + [s[n]];
    }
  }

  // ---------------------------------------------------------------------------
  // A run of remove-and-re-adds

  /** The elements whose key is not in ks, in their order. */
  function Without<T, K(==)>(s: seq<T>, ks: set<K>, key: T -> K): (r: seq<T>)
    ensures Keys(r, key) == Keys(s, key) - ks
    decreases |s|
  {
    if |s| == 0 then []
    else
      var n := |s| - 1;
      KeysSnoc(s[..n], s[n], key);
      assert s == s[..n] + [s[n]];
      var front := Without(s[..n], ks, key);
      if key(s[n]) in ks then front else (KeysSnoc(front, s[n], key); front + [s[n]])
  }

  /** Every element of w that no later element of w equals, in order: where the last occurrences stand. */
  function LastOccurrences<T, K(==)>(w: seq<T>, key: T -> K): seq<T>
    decreases |w|
  {
    if |w| == 0 then []
    else (if key(w[0]) in Keys(w[1..], key) then [] else [w[0]]) + LastOccurrences(w[1..], key)
  }

  /** The elements of w upserted one after the other, in order. */
  function UpsertAll<T, K(==)>(s: seq<T>, w: seq<T>, key: T -> K): seq<T>
    decreases |w|
  {
    if |w| == 0 then s else UpsertAll(Upsert(s, w[0], key), w[1..], key)
  }

  lemma {:induction false} RemoveIsWithout<T, K>(s: seq<T>, k: K, key: T -> K)
    ensures Remove(s, k, key) == Without(s, {k}, key)
    decreases |s|
  {
    if |s| > 0 {
      RemoveIsWithout(s[..|s| - 1], k, key);
    }
  }

  lemma {:induction false} WithoutAppend<T, K>(s: seq<T>, t: seq<T>, ks: set<K>, key: T -> K)
    ensures Without(s + t, ks, key) == Without(s, ks, key) + Without(t, ks, key)
    decreases |t|
  {
    if |t| > 0 {
      var n := |t| - 1;
      var tail := if key(t[n]) in ks then [] else [t[n]];
      assert (s + t)[..|s + t| - 1] == s + t[..n];
      assert (s + t)[|s + t| - 1] == t[n];
      assert Without(s + t, ks, key) == Without(s + t[..n], ks, key) + tail;
      assert Without(t, ks, key) == Without(t[..n], ks, key) + tail;
      WithoutAppend(s, t[..n], ks, key);
      assert (Without(s, ks, key) + Without(t[..n], ks, key)) + tail
          == Without(s, ks, key) + (Without(t[..n], ks, key) + tail);
    } else {
      assert s + t == s;
    }
  }

  lemma {:induction false} WithoutWithout<T, K>(s: seq<T>, ks: set<K>, ls: set<K>, key: T -> K)
    ensures Without(Without(s, ks, key), ls, key) == Without(s, ks + ls, key)
    decreases |s|
  {
    if |s| > 0 {
      var n := |s| - 1;
      WithoutWithout(s[..n], ks, ls, key);
      var front := Without(s[..n], ks, key);
      if key(s[n]) !in ks {
        assert (front + [s[n]])[..|front|] == front;
      }
    }
  }

  /**
   * Upserting w leaves the elements of s that w does not re-add, in their order, followed by
   * w's elements at their last occurrences: the last occurrence of a key decides its place.
   */
  lemma {:induction false} UpsertAllIsLastOccurrences<T, K>(s: seq<T>, w: seq<T>, key: T -> K)
    ensures UpsertAll(s, w, key) == Without(s, Keys(w, key), key) + LastOccurrences(w, key)
    decreases |w|
  {
    if |w| == 0 {
      WithoutNothing(s, key);
    } else {
      var x, rest := w[0], w[1..];
      var ks := Keys(rest, key);
      var kept := if key(x) in ks then [] else [x];
      UpsertAllIsLastOccurrences(Upsert(s, x, key), rest, key);
      UpsertHeadStep(s, x, ks, key);
      KeysCons(w, key);
      assert LastOccurrences(w, key) == kept + LastOccurrences(rest, key);
      assert UpsertAll(s, w, key) == (Without(s, Keys(w, key), key) + kept) + LastOccurrences(rest, key);
    }
  }

  /** Taking keys out of a one-element set. */
  lemma WithoutSingle<T, K>(x: T, ks: set<K>, key: T -> K)
    ensures Without([x], ks, key) == if key(x) in ks then [] else [x]
  {
    assert [x][..0] == [];
  }

  /** Upserting into a one-element set: the element stays first unless it is re-added. */
  lemma UpsertAllSingle<T, K>(x: T, w: seq<T>, key: T -> K)
    ensures UpsertAll([x], w, key) == (if key(x) in Keys(w, key) then [] else [x]) + LastOccurrences(w, key)
    ensures key(x) in Keys(UpsertAll([x], w, key), key)
  {
    UpsertAllIsLastOccurrences([x], w, key);
    WithoutSingle(x, Keys(w, key), key);
    UpsertAllKeys([x], w, key);
    assert key([x][0]) in Keys([x], key);
  }

  lemma KeysCons<T, K>(w: seq<T>, key: T -> K)
    requires |w| > 0
    ensures Keys(w, key) == {key(w[0])} + Keys(w[1..], key)
  {
    var head := [w[0]];
    assert head[..0] == [];
    assert Keys(head, key) == {key(w[0])};
    KeysAppend(head, w[1..], key);
    assert head + w[1..] == w;
  }

  /** What of one upsert survives removing the keys ks. */
  lemma UpsertHeadStep<T, K>(s: seq<T>, x: T, ks: set<K>, key: T -> K)
    ensures Without(Upsert(s, x, key), ks, key) ==
      Without(s, {key(x)} + ks, key) + (if key(x) in ks then [] else [x])
  {
    var front := Remove(s, key(x), key);
    RemoveIsWithout(s, key(x), key);
    WithoutAppend(front, [x], ks, key);
    WithoutWithout(s, {key(x)}, ks, key);
    assert [x][..0] == [];
  }

  lemma {:induction false} WithoutNothing<T, K>(s: seq<T>, key: T -> K)
    ensures Without(s, {}, key) == s
    decreases |s|
  {
    if |s| > 0 {
      WithoutNothing(s[..|s| - 1], key);
    }
  }

  /** upserting adds the keys of w and only those. */
  lemma {:induction false} UpsertAllKeys<T, K>(s: seq<T>, w: seq<T>, key: T -> K)
    ensures Keys(UpsertAll(s, w, key), key) == Keys(s, key) + Keys(w, key)
    decreases |w|
  {
    if |w| > 0 {
      UpsertAllKeys(Upsert(s, w[0], key), w[1..], key);
      KeysCons(w, key);
    }
  }

  /** upserting never introduces a duplicate. */
  lemma {:induction false} UpsertAllNoDup<T, K>(s: seq<T>, w: seq<T>, key: T -> K)
    requires NoDup(s, key)
    ensures NoDup(UpsertAll(s, w, key), key)
    decreases |w|
  {
    if |w| > 0 {
      UpsertAllNoDup(Upsert(s, w[0], key), w[1..], key);
    }
  }

  /** Upserting u and then v is upserting u + v. */
  lemma {:induction false} UpsertAllAppend<T, K>(s: seq<T>, u: seq<T>, v: seq<T>, key: T -> K)
    ensures UpsertAll(UpsertAll(s, u, key), v, key) == UpsertAll(s, u + v, key)
    decreases |u|
  {
    if |u| > 0 {
      assert (u + v)[0] == u[0];
      assert (u + v)[1..] == u[1..] + v;
      assert UpsertAll(s, u, key) == UpsertAll(Upsert(s, u[0], key), u[1..], key);
      assert UpsertAll(s, u + v, key) == UpsertAll(Upsert(s, u[0], key), u[1..] + v, key);
      UpsertAllAppend(Upsert(s, u[0], key), u[1..], v, key);
    } else {
      assert u + v == v;
    }
  }

  /** The first element stays first while nothing equal to it is re-added. */
  lemma UpsertAllKeepsHead<T, K>(s: seq<T>, w: seq<T>, key: T -> K)
    requires |s| > 0 && key(s[0]) !in Keys(w, key)
    ensures |UpsertAll(s, w, key)| > 0 && UpsertAll(s, w, key)[0] == s[0]
  {
    var ks := Keys(w, key);
    var head := [s[0]];
    UpsertAllIsLastOccurrences(s, w, key);
    assert head + s[1..] == s;
    WithoutAppend(head, s[1..], ks, key);
    assert head[..0] == [];
    assert Without(head, ks, key) == head;
    assert Without(s, ks, key)[0] == s[0];
  }
}

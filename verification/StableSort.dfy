/** What sort.SliceStable promises, for the sidebar order: pinned first, then newest. */
module StableSort {

  datatype SortKey = SortKey(pinned: bool, updatedAt: int)

  /** An item with the key it has when the sort starts; the sort changes no item. */
  datatype Entry<T> = Entry(item: T, key: SortKey)

  /** The less function of rebuildChatModel. */
  predicate Before(a: SortKey, b: SortKey) {
    if a.pinned != b.pinned then a.pinned else a.updatedAt > b.updatedAt
  }

  ghost predicate Ordered<T>(s: seq<Entry<T>>) {
    forall i, j :: 0 <= i < j < |s| ==> !Before(s[j].key, s[i].key)
  }

  /** In other words: pinned before unpinned, and of two alike never the older before the newer. */
  lemma OrderedMeans<T>(s: seq<Entry<T>>)
    ensures Ordered(s) <==> forall i, j :: 0 <= i < j < |s| ==>
              && (s[j].key.pinned ==> s[i].key.pinned)
              && (s[i].key.pinned == s[j].key.pinned ==> s[i].key.updatedAt >= s[j].key.updatedAt)
  {
  }

  function WithKey<T>(s: seq<Entry<T>>, k: SortKey): (r: seq<Entry<T>>) {
    if s == [] then []
    else WithKey(s[..|s| - 1], k) + if s[|s| - 1].key == k then [s[|s| - 1]] else []
  }

  /**
   t holds the entries of s in key order, and entries with equal keys in the order of s.
   Equal runs for every key also make t a permutation of s (StableIsPermutation).
   */
  ghost predicate StableSortOf<T>(s: seq<Entry<T>>, t: seq<Entry<T>>) {
    Ordered(t) && forall k :: WithKey(t, k) == WithKey(s, k)
  }

  function Insert<T>(e: Entry<T>, s: seq<Entry<T>>): (r: seq<Entry<T>>) {
    if s == [] then [e]
    else
      var last := |s| - 1;
      if Before(e.key, s[last].key) then Insert(e, s[..last]) + [s[last]] else s + [e]
  }

  function Sorted<T>(s: seq<Entry<T>>): (r: seq<Entry<T>>) {
    if s == [] then [] else Insert(s[|s| - 1], Sorted(s[..|s| - 1]))
  }

  lemma SortedStep<T>(s: seq<Entry<T>>, n: nat)
    requires n < |s|
    ensures Sorted(s[..n + 1]) == Insert(s[n], Sorted(s[..n]))
  {
    assert s[..n + 1][..n] == s[..n];
  }

  lemma WithKeyAppend<T>(s: seq<Entry<T>>, e: Entry<T>, k: SortKey)
    ensures WithKey(s + [e], k) == WithKey(s, k) + if e.key == k then [e] else []
  {
    assert (s + [e])[..|s|] == s;
  }

  lemma {:induction false} WithKeyMember<T>(s: seq<Entry<T>>, e: Entry<T>)
    ensures multiset(WithKey(s, e.key))[e] == multiset(s)[e]
  {
    if s != [] {
      WithKeyMember(s[..|s| - 1], e);
      assert s == s[..|s| - 1] + [s[|s| - 1]];
    }
  }

  lemma {:induction false} InsertMembers<T>(e: Entry<T>, s: seq<Entry<T>>)
    ensures multiset(Insert(e, s)) == multiset(s) + multiset{e}
  {
    if s != [] {
      InsertMembers(e, s[..|s| - 1]);
      assert s == s[..|s| - 1] + [s[|s| - 1]];
    }
  }

  lemma {:induction false} InsertOrdered<T>(e: Entry<T>, s: seq<Entry<T>>)
    requires Ordered(s)
    ensures Ordered(Insert(e, s))
  {
    if s != [] {
      var last := |s| - 1;
      if Before(e.key, s[last].key) {
        InsertOrdered(e, s[..last]);
        InsertMembers(e, s[..last]);
        var t := Insert(e, s[..last]);
        forall i | 0 <= i < |t| ensures !Before(s[last].key, t[i].key) {
          assert t[i] in multiset(t);
        }
      }
    }
  }

  lemma {:induction false} InsertKeepsRuns<T>(e: Entry<T>, s: seq<Entry<T>>, k: SortKey)
    ensures WithKey(Insert(e, s), k) == WithKey(s + [e], k)
  {
    WithKeyAppend(s, e, k);
    if s != [] && Before(e.key, s[|s| - 1].key) {
      var before, last := s[..|s| - 1], s[|s| - 1];
      InsertKeepsRuns(e, before, k);
      WithKeyAppend(Insert(e, before), last, k);
      WithKeyAppend(before, e, k);
    }
  }

  lemma {:induction false} SortedIsStable<T>(s: seq<Entry<T>>)
    ensures StableSortOf(s, Sorted(s))
    ensures multiset(Sorted(s)) == multiset(s)
  {
    if s != [] {
      var before, last := s[..|s| - 1], s[|s| - 1];
      SortedIsStable(before);
      InsertMembers(last, Sorted(before));
      InsertOrdered(last, Sorted(before));
      assert s == before + [last];
      forall k ensures WithKey(Sorted(s), k) == WithKey(s, k) {
        InsertKeepsRuns(last, Sorted(before), k);
        WithKeyAppend(Sorted(before), last, k);
        WithKeyAppend(before, last, k);
      }
    }
  }

  lemma StableIsPermutation<T>(s: seq<Entry<T>>, t: seq<Entry<T>>)
    requires StableSortOf(s, t)
    ensures multiset(s) == multiset(t)
  {
    forall e ensures multiset(s)[e] == multiset(t)[e] {
      WithKeyMember(s, e);
      WithKeyMember(t, e);
      assert WithKey(t, e.key) == WithKey(s, e.key);
    }
  }

  lemma SameLast<T>(t: seq<Entry<T>>, u: seq<Entry<T>>)
    requires Ordered(t) && StableSortOf(t, u) && |t| == |u| > 0
    ensures t[|t| - 1] == u[|u| - 1]
  {
    var a, b := t[|t| - 1], u[|u| - 1];
    StableIsPermutation(t, u);
    assert a in multiset(t) && b in multiset(u);
    assert a in u && b in t;
    assert a.key == b.key;
    assert WithKey(t, a.key) == WithKey(u, a.key);
    var runT, runU := WithKey(t, a.key), WithKey(u, b.key);
    assert runT[|runT| - 1] == a && runU[|runU| - 1] == b;
  }

  lemma SameHead<T>(a: seq<T>, b: seq<T>, tail: seq<T>)
    requires a + tail == b + tail
    ensures a == b
  {
    assert |a + tail| == |b + tail|;
    assert (a + tail)[..|a|] == a && (b + tail)[..|b|] == b;
  }

  /** A stable sort is unique, so the choice of algorithm does not matter. */
  lemma {:induction false} StableSortUnique<T>(t: seq<Entry<T>>, u: seq<Entry<T>>)
    requires Ordered(t) && StableSortOf(t, u)
    ensures t == u
  {
    StableIsPermutation(t, u);
    assert |multiset(t)| == |multiset(u)|;
    if t != [] {
      SameLast(t, u);
      var before, other, last := t[..|t| - 1], u[..|u| - 1], t[|t| - 1];
      assert t == before + [last] && u == other + [last];
      forall k ensures WithKey(other, k) == WithKey(before, k) {
        assert WithKey(u, k) == WithKey(t, k);
        WithKeyAppend(before, last, k);
        WithKeyAppend(other, last, k);
        var tail := if last.key == k then [last] else [];
        SameHead(WithKey(before, k), WithKey(other, k), tail);
      }
      StableSortUnique(before, other);
    }
  }

  /** Where an insertion loop that walks back from the end comes to rest. */
  lemma {:induction false} InsertAt<T>(e: Entry<T>, s: seq<Entry<T>>, j: nat)
    requires j <= |s|
    requires j == 0 || !Before(e.key, s[j - 1].key)
    requires forall i :: j <= i < |s| ==> Before(e.key, s[i].key)
    ensures Insert(e, s) == s[..j] + [e] + s[j..]
  {
    if j < |s| {
      var last := |s| - 1;
      InsertAt(e, s[..last], j);
      assert s[j..] == s[..last][j..] + [s[last]];
      assert s[..last][..j] == s[..j];
    } else {
      assert s[..j] == s && s[j..] == [];
    }
  }
}

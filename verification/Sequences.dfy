/** Facts about sequences that several components share: orders, duplicates, permutations. */
module Sequences {

  datatype Option<+T> = None | Some(value: T)

  ghost predicate NoDuplicates<T>(s: seq<T>) {
    forall i, j :: 0 <= i < j < |s| ==> s[i] != s[j]
  }

  /** s lists the indices below n in some order. */
  ghost predicate IsPermutation(s: seq<nat>, n: nat) {
    |s| == n && NoDuplicates(s) && forall i :: 0 <= i < |s| ==> s[i] < n
  }

  ghost predicate Asymmetric<T(!new)>(less: (T, T) -> bool) {
    forall a, b :: less(a, b) ==> !less(b, a)
  }

  ghost predicate StrictlySorted<T>(s: seq<T>, less: (T, T) -> bool) {
    forall i, j :: 0 <= i < j < |s| ==> less(s[i], s[j])
  }

  ghost predicate SameElements<T(!new)>(s: seq<T>, t: seq<T>) {
    forall x :: x in s <==> x in t
  }

  /** A set of elements has at most one strictly sorted listing. */
  lemma {:induction false} SortedListingIsUnique<T(!new)>(s: seq<T>, t: seq<T>, less: (T, T) -> bool)
    requires Asymmetric(less)
    requires StrictlySorted(s, less) && StrictlySorted(t, less) && SameElements(s, t)
    ensures s == t
  {
    if s == [] {
      if t != [] {
        HasElement(t);
      }
    } else {
      assert s[0] in t;
      assert t[0] in s;
      assert s[0] == t[0] by {
        var i :| 0 <= i < |t| && t[i] == s[0];
        var j :| 0 <= j < |s| && s[j] == t[0];
      }
      forall x ensures x in s[1..] <==> x in t[1..] {
        TailElement(s, x, less);
        TailElement(t, x, less);
      }
      SortedListingIsUnique(s[1..], t[1..], less);
      assert s == [s[0]] + s[1..] && t == [t[0]] + t[1..];
    }
  }

  lemma HasElement<T(!new)>(s: seq<T>)
    requires s != []
    ensures exists x :: x in s
  {
    assert s[0] in s;
  }

  lemma TailElement<T(!new)>(s: seq<T>, x: T, less: (T, T) -> bool)
    requires s != [] && Asymmetric(less) && StrictlySorted(s, less)
    ensures x in s[1..] <==> x in s && x != s[0]
  {
    if x in s[1..] {
      var k :| 0 <= k < |s[1..]| && s[1..][k] == x;
      assert less(s[0], s[k + 1]);
    }
    if x in s && x != s[0] {
      var k :| 0 <= k < |s| && s[k] == x;
      assert s[1..][k - 1] == x;
    }
  }

  function Before(a: nat, b: nat): bool { a < b }

  function Flatten<T>(ss: seq<seq<T>>): seq<T> {
    if ss == [] then [] else ss[0] + Flatten(ss[1..])
  }

  lemma {:induction false} FlattenAppend<T>(ss: seq<seq<T>>, s: seq<T>)
    ensures Flatten(ss + [s]) == Flatten(ss) + s
  {
    if ss == [] {
      assert [s][1..] == [];
    } else {
      FlattenAppend(ss[1..], s);
      assert (ss + [s])[1..] == ss[1..] + [s];
    }
  }

  /** Selecting by index: the elements of s at the given positions. */
  function Pick<T>(s: seq<T>, at: seq<nat>): (r: seq<T>)
    requires forall k :: 0 <= k < |at| ==> at[k] < |s|
    ensures |r| == |at|
  {
    seq(|at|, k requires 0 <= k < |at| => s[at[k]])
  }

  // ---------- Counting arguments ----------

  function Elements<T>(s: seq<T>): set<T> { set x | x in s }

  lemma {:induction false} DistinctCount<T>(s: seq<T>)
    ensures |Elements(s)| <= |s|
    ensures |Elements(s)| == |s| <==> NoDuplicates(s)
  {
    if s != [] {
      var init, x := s[..|s| - 1], s[|s| - 1];
      DistinctCount(init);
      assert s == init + [x];
      assert Elements(s) == Elements(init) + {x};
      if x in init {
        var k :| 0 <= k < |init| && init[k] == x;
        assert Elements(s) == Elements(init);
        assert s[k] == s[|s| - 1];
      } else {
        assert |Elements(s)| == |Elements(init)| + 1;
        if NoDuplicates(init) {
          forall i, j | 0 <= i < j < |s| ensures s[i] != s[j] {
            if j == |s| - 1 {
              assert s[i] in init;
            } else {
              assert init[i] != init[j];
            }
          }
        }
        if NoDuplicates(s) {
          forall i, j | 0 <= i < j < |init| ensures init[i] != init[j] {
            assert s[i] != s[j];
          }
        }
      }
    }
  }

  /** Duplicate-free sequences with the same elements have the same multiset. */
  lemma {:induction false} NoDuplicatesMultiset<T>(s: seq<T>)
    requires NoDuplicates(s)
    ensures multiset(s) == multiset(Elements(s))
  {
    if s == [] {
      assert Elements(s) == {};
    } else {
      var init, x := s[..|s| - 1], s[|s| - 1];
      assert s == init + [x];
      assert forall i, j :: 0 <= i < j < |init| ==> s[i] != s[j];
      NoDuplicatesMultiset(init);
      assert x !in init;
      assert Elements(s) == Elements(init) + {x};
    }
  }

  // ---------- Flattened sequences ----------

  ghost predicate InSome<T>(ss: seq<seq<T>>, x: T) {
    exists g :: 0 <= g < |ss| && x in ss[g]
  }

  ghost predicate PairwiseDisjoint<T(!new)>(ss: seq<seq<T>>) {
    forall g, h, x :: 0 <= g < h < |ss| && x in ss[g] ==> x !in ss[h]
  }

  lemma {:induction false} FlattenElements<T(!new)>(ss: seq<seq<T>>, x: T)
    ensures x in Flatten(ss) <==> InSome(ss, x)
  {
    if ss != [] {
      FlattenElements(ss[1..], x);
      if InSome(ss[1..], x) {
        var g :| 0 <= g < |ss[1..]| && x in ss[1..][g];
        assert x in ss[g + 1];
      }
      if InSome(ss, x) && x !in ss[0] {
        var g :| 0 <= g < |ss| && x in ss[g];
        assert x in ss[1..][g - 1];
      }
    }
  }

  lemma AppendNoDuplicates<T(!new)>(a: seq<T>, b: seq<T>)
    requires NoDuplicates(a) && NoDuplicates(b) && forall x :: x in a ==> x !in b
    ensures NoDuplicates(a + b)
  {
    forall i, j | 0 <= i < j < |a + b| ensures (a + b)[i] != (a + b)[j] {
      if i < |a| <= j {
        assert a[i] in a && b[j - |a|] in b;
      }
    }
  }

  lemma {:induction false} FlattenNoDuplicates<T(!new)>(ss: seq<seq<T>>)
    requires PairwiseDisjoint(ss) && forall g :: 0 <= g < |ss| ==> NoDuplicates(ss[g])
    ensures NoDuplicates(Flatten(ss))
  {
    if ss != [] {
      FlattenNoDuplicates(ss[1..]);
      forall x | x in ss[0] ensures x !in Flatten(ss[1..]) {
        FlattenElements(ss[1..], x);
      }
      AppendNoDuplicates(ss[0], Flatten(ss[1..]));
    }
  }

  /** A duplicate-free sequence over exactly the elements of another is a permutation of it. */
  lemma SameMultiset<T(!new)>(s: seq<T>, t: seq<T>)
    requires NoDuplicates(s) && NoDuplicates(t) && SameElements(s, t)
    ensures multiset(s) == multiset(t) && |s| == |t|
  {
    NoDuplicatesMultiset(s);
    NoDuplicatesMultiset(t);
    assert Elements(s) == Elements(t);
    assert |multiset(s)| == |s| && |multiset(t)| == |t|;
  }

  lemma PickNoDuplicates<T>(s: seq<T>, at: seq<nat>)
    requires NoDuplicates(s) && NoDuplicates(at) && forall k :: 0 <= k < |at| ==> at[k] < |s|
    ensures NoDuplicates(Pick(s, at))
  {
    forall i, j | 0 <= i < j < |at| ensures Pick(s, at)[i] != Pick(s, at)[j] {
      assert at[i] != at[j];
      assert at[i] < at[j] || at[j] < at[i];
    }
  }

  lemma PickElement<T>(s: seq<T>, at: seq<nat>, i: nat)
    requires i in at && forall k :: 0 <= k < |at| ==> at[k] < |s|
    ensures i < |s| && s[i] in Pick(s, at)
  {
    var k :| 0 <= k < |at| && at[k] == i;
    assert Pick(s, at)[k] == s[i];
  }
}

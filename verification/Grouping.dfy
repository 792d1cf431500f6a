/** Grouping positions by a key, groups in order of first appearance.
  *
  * The optimizer groups stops by union-find root, and the route builder groups a sequence of
  * delivery ids by group key; both fill a dictionary of lists plus an order list.
  */
module Grouping {
  import opened Sequences

  /** The distinct keys, in order of first appearance. */
  function FirstKeys<K(==)>(keys: seq<K>): seq<K> {
    if keys == [] then []
    else
      var f, k := FirstKeys(keys[..|keys| - 1]), keys[|keys| - 1];
      if k in f then f else f + [k]
  }

  /** The positions carrying key k, ascending. */
  function Members<K(==)>(keys: seq<K>, k: K): (r: seq<nat>)
    ensures forall j :: 0 <= j < |r| ==> r[j] < |keys|
  {
    if keys == [] then []
    else
      var n := |keys| - 1;
      var m := Members(keys[..n], k);
      if keys[n] == k then m + [n] else m
  }

  function Groups<K(==)>(keys: seq<K>): seq<seq<nat>> {
    MembersOfEach(keys, FirstKeys(keys))
  }

  function MembersOfEach<K(==)>(keys: seq<K>, f: seq<K>): (r: seq<seq<nat>>)
    ensures |r| == |f|
  {
    seq(|f|, g requires 0 <= g < |f| => Members(keys, f[g]))
  }

  ghost predicate Covered(groups: seq<seq<nat>>, i: nat) {
    exists g :: 0 <= g < |groups| && i in groups[g]
  }

  /** groups lists the classes of `same` on the positions below n: every group non-empty and
    * ascending, groups ordered by their smallest position, each position in exactly one. */
  ghost predicate IsGrouping(groups: seq<seq<nat>>, n: nat, same: (nat, nat) -> bool) {
    && (forall g :: 0 <= g < |groups| ==> groups[g] != [] && StrictlySorted(groups[g], Before))
    && (forall g, h :: 0 <= g < h < |groups| ==> groups[g][0] < groups[h][0])
    && (forall g, i :: 0 <= g < |groups| && i in groups[g] ==> i < n)
    && (forall i: nat :: i < n ==> Covered(groups, i))
    && (forall g, h, i, j :: 0 <= g < |groups| && 0 <= h < |groups| && i in groups[g] && j in groups[h] ==>
      (g == h <==> same(i, j)))
  }

  // ---------- The functions meet the description ----------

  lemma {:induction false} FirstKeysAreTheKeys<K(!new)>(keys: seq<K>, f: seq<K>)
    requires f == FirstKeys(keys)
    ensures NoDuplicates(f) && SameElements(f, keys)
  {
    if keys != [] {
      var init, k := keys[..|keys| - 1], keys[|keys| - 1];
      FirstKeysAreTheKeys(init, FirstKeys(init));
      assert keys == init + [k];
    }
  }

  lemma {:induction false} MembersAreThePositions<K>(keys: seq<K>, k: K, m: seq<nat>)
    requires m == Members(keys, k)
    ensures StrictlySorted(m, Before)
    ensures forall i: nat :: i in m <==> i < |keys| && keys[i] == k
  {
    if keys != [] {
      var n := |keys| - 1;
      MembersAreThePositions(keys[..n], k, Members(keys[..n], k));
    }
  }

  lemma {:induction false} FirstAppearanceOrder<K(!new)>(keys: seq<K>, g: nat, h: nat)
    requires g < h < |FirstKeys(keys)|
    ensures var a, b := Members(keys, FirstKeys(keys)[g]), Members(keys, FirstKeys(keys)[h]);
      a != [] && b != [] && a[0] < b[0]
  {
    var n := |keys|;
    var init, k := keys[..n - 1], keys[n - 1];
    var f := FirstKeys(init);
    if h < |f| {
      FirstAppearanceOrder(init, g, h);
    } else {
      FirstKeysAreTheKeys(init, f);
      assert f[g] in f && f[g] in init;
      var i :| 0 <= i < |init| && init[i] == f[g];
      MembersAreThePositions(init, f[g], Members(init, f[g]));
      assert i in Members(init, f[g]);
      NoMembers(init, k);
    }
  }

  lemma NoMembers<K(!new)>(keys: seq<K>, k: K)
    requires k !in FirstKeys(keys)
    ensures Members(keys, k) == []
  {
    var m := Members(keys, k);
    FirstKeysAreTheKeys(keys, FirstKeys(keys));
    MembersAreThePositions(keys, k, m);
    if m != [] {
      HasElement(m);
    }
  }

  lemma GroupIsKeyClass<K(!new)>(keys: seq<K>, g: nat)
    requires g < |FirstKeys(keys)|
    ensures Groups(keys)[g] != [] && StrictlySorted(Groups(keys)[g], Before)
    ensures forall i: nat :: i in Groups(keys)[g] <==> i < |keys| && keys[i] == FirstKeys(keys)[g]
  {
    var f := FirstKeys(keys);
    var k := f[g];
    FirstKeysAreTheKeys(keys, f);
    MembersAreThePositions(keys, k, Groups(keys)[g]);
    assert k in f && k in keys;
    var i :| 0 <= i < |keys| && keys[i] == k;
    assert i in Groups(keys)[g];
  }

  lemma GroupsFormGrouping<K(!new)>(keys: seq<K>, same: (nat, nat) -> bool)
    requires forall i: nat, j: nat :: i < |keys| && j < |keys| ==> (same(i, j) <==> keys[i] == keys[j])
    ensures IsGrouping(Groups(keys), |keys|, same)
  {
    var f, groups := FirstKeys(keys), Groups(keys);
    FirstKeysAreTheKeys(keys, f);
    forall g: nat | g < |f|
      ensures groups[g] != [] && StrictlySorted(groups[g], Before)
      ensures forall i: nat :: i in groups[g] <==> i < |keys| && keys[i] == f[g]
    {
      GroupIsKeyClass(keys, g);
    }
    forall g, h | 0 <= g < h < |groups| ensures groups[g][0] < groups[h][0] {
      FirstAppearanceOrder(keys, g, h);
    }
    forall i: nat | i < |keys| ensures Covered(groups, i) {
      assert keys[i] in f;
      var g: nat :| g < |f| && f[g] == keys[i];
      assert i in groups[g];
    }
    forall g, h, i, j | 0 <= g < |groups| && 0 <= h < |groups| && i in groups[g] && j in groups[h]
      ensures g == h <==> same(i, j)
    {
      assert g == h <==> f[g] == f[h];
    }
  }

  // ---------- Filling a dictionary of lists ----------

  /** The dictionary and order list after the first |keys| items have been collected. */
  ghost predicate Collected<K(!new), T>(lists: map<K, seq<T>>, order: seq<K>, keys: seq<K>, items: seq<T>)
    requires |keys| <= |items|
  {
    && order == FirstKeys(keys)
    && (forall k :: k in lists <==> k in order)
    && (forall k :: k in lists ==> lists[k] == Pick(items, Members(keys, k)))
  }

  lemma AppendKey<K(!new)>(keys: seq<K>, k: K, j: K)
    ensures Members(keys + [k], j) == if j == k then Members(keys, j) + [|keys|] else Members(keys, j)
    ensures FirstKeys(keys + [k]) == if k in FirstKeys(keys) then FirstKeys(keys) else FirstKeys(keys) + [k]
  {
    assert (keys + [k])[..|keys|] == keys;
  }

  lemma PickAppend<T>(items: seq<T>, at: seq<nat>, i: nat)
    requires i < |items| && forall k :: 0 <= k < |at| ==> at[k] < |items|
    ensures Pick(items, at + [i]) == Pick(items, at) + [items[i]]
  {
  }

  /** One more position with a key seen before extends that key's group. */
  lemma GroupsKnown<K(!new)>(keys: seq<K>, k: K, g: nat)
    requires g < |FirstKeys(keys)| && FirstKeys(keys)[g] == k
    ensures FirstKeys(keys + [k]) == FirstKeys(keys)
    ensures Groups(keys + [k]) == Groups(keys)[g := Groups(keys)[g] + [|keys|]]
  {
    var f := FirstKeys(keys);
    FirstKeysAreTheKeys(keys, f);
    assert f[g] in f;
    AppendKey(keys, k, k);
    EachKnown(keys, k, f, g);
  }

  lemma EachKnown<K(!new)>(keys: seq<K>, k: K, f: seq<K>, g: nat)
    requires NoDuplicates(f) && g < |f| && f[g] == k
    ensures MembersOfEach(keys + [k], f) == MembersOfEach(keys, f)[g := Members(keys, k) + [|keys|]]
  {
    forall h: nat | h < |f|
      ensures Members(keys + [k], f[h]) == if h == g then Members(keys, f[h]) + [|keys|] else Members(keys, f[h])
    {
      AppendKey(keys, k, f[h]);
      assert f[h] == k <==> h == g;
    }
  }

  /** A new key opens a group at the end. */
  lemma GroupsNew<K(!new)>(keys: seq<K>, k: K)
    requires k !in FirstKeys(keys)
    ensures FirstKeys(keys + [k]) == FirstKeys(keys) + [k]
    ensures Groups(keys + [k]) == Groups(keys) + [[|keys|]]
  {
    NoMembers(keys, k);
    AppendKey(keys, k, k);
    EachNew(keys, k, FirstKeys(keys));
  }

  lemma EachNew<K(!new)>(keys: seq<K>, k: K, f: seq<K>)
    requires k !in f && Members(keys, k) == []
    ensures MembersOfEach(keys + [k], f + [k]) == MembersOfEach(keys, f) + [[|keys|]]
  {
    var a, b := MembersOfEach(keys + [k], f + [k]), MembersOfEach(keys, f) + [[|keys|]];
    forall h: nat | h < |a| ensures a[h] == b[h] {
      AppendKey(keys, k, (f + [k])[h]);
    }
  }

  /** The next item goes to the list of its key; a key not seen before opens a list at the end. */
  lemma CollectKnown<K(!new), T>(lists: map<K, seq<T>>, order: seq<K>, keys: seq<K>, items: seq<T>, k: K)
    requires |keys| < |items| && Collected(lists, order, keys, items) && k in order
    ensures Collected(lists[k := lists[k] + [items[|keys|]]], order, keys + [k], items)
  {
    PickAppend(items, Members(keys, k), |keys|);
    forall j ensures Members(keys + [k], j) == if j == k then Members(keys, j) + [|keys|] else Members(keys, j) {
      AppendKey(keys, k, j);
    }
    AppendKey(keys, k, k);
  }

  lemma CollectNew<K(!new), T>(lists: map<K, seq<T>>, order: seq<K>, keys: seq<K>, items: seq<T>, k: K)
    requires |keys| < |items| && Collected(lists, order, keys, items) && k !in order
    ensures Collected(lists[k := [items[|keys|]]], order + [k], keys + [k], items)
  {
    NoMembers(keys, k);
    forall j ensures Members(keys + [k], j) == if j == k then Members(keys, j) + [|keys|] else Members(keys, j) {
      AppendKey(keys, k, j);
    }
    AppendKey(keys, k, k);
    assert Pick(items, Members(keys + [k], k)) == [items[|keys|]];
  }

  /** One pass of the loop body: open a list for a new key, then append. */
  lemma CollectNext<K(!new), T>(lists: map<K, seq<T>>, order: seq<K>, keys: seq<K>, items: seq<T>, k: K)
    requires |keys| < |items| && Collected(lists, order, keys, items)
    ensures k in lists ==> Collected(lists[k := lists[k] + [items[|keys|]]], order, keys + [k], items)
    ensures k !in lists ==> Collected(lists[k := []][k := [] + [items[|keys|]]], order + [k], keys + [k], items)
  {
    if k in lists {
      CollectKnown(lists, order, keys, items, k);
    } else {
      CollectNew(lists, order, keys, items, k);
      var one := [items[|keys|]];
      assert [] + one == one;
      assert lists[k := []][k := one] == lists[k := one];
    }
  }

  /** Reading the dictionary in order: one list per key. */
  function InOrder<K(==,!new), T>(lists: map<K, seq<T>>, order: seq<K>): (r: seq<seq<T>>)
    requires forall k :: k in order ==> k in lists
    ensures |r| == |order|
  {
    seq(|order|, g requires 0 <= g < |order| => lists[order[g]])
  }

  /** Positions read as items. */
  function ItemsAt<T>(items: seq<T>, groups: seq<seq<nat>>): (r: seq<seq<T>>)
    requires forall g, k :: 0 <= g < |groups| && 0 <= k < |groups[g]| ==> groups[g][k] < |items|
    ensures |r| == |groups|
  {
    seq(|groups|, g requires 0 <= g < |groups| => Pick(items, groups[g]))
  }

  lemma CollectedInOrder<K(!new), T>(lists: map<K, seq<T>>, order: seq<K>, keys: seq<K>, items: seq<T>)
    requires |keys| <= |items| && Collected(lists, order, keys, items)
    ensures InOrder(lists, order) == ItemsAt(items, Groups(keys))
  {
  }

  // ---------- The description determines the result ----------

  function Heads(groups: seq<seq<nat>>): (r: seq<nat>)
    requires forall g :: 0 <= g < |groups| ==> groups[g] != []
    ensures |r| == |groups|
  {
    seq(|groups|, g requires 0 <= g < |groups| => groups[g][0])
  }

  lemma GroupSharesHead(a: seq<seq<nat>>, b: seq<seq<nat>>, n: nat, same: (nat, nat) -> bool, g: nat) returns (h: nat)
    requires IsGrouping(a, n, same) && IsGrouping(b, n, same) && g < |a|
    ensures h < |b| && b[h] == a[g]
  {
    var x := a[g][0];
    assert x in a[g] && Covered(b, x);
    h :| 0 <= h < |b| && x in b[h];
    forall i ensures i in a[g] <==> i in b[h] {
      if i in a[g] {
        assert Covered(b, i);
        var k :| 0 <= k < |b| && i in b[k];
        assert same(x, i);
      }
      if i in b[h] {
        assert Covered(a, i);
        var k :| 0 <= k < |a| && i in a[k];
        assert same(x, i);
      }
    }
    SortedListingIsUnique(a[g], b[h], Before);
  }

  /** There is exactly one grouping of given positions by a given relation. */
  lemma GroupingIsUnique(a: seq<seq<nat>>, b: seq<seq<nat>>, n: nat, same: (nat, nat) -> bool)
    requires IsGrouping(a, n, same) && IsGrouping(b, n, same)
    ensures a == b
  {
    forall x ensures x in Heads(a) <==> x in Heads(b) {
      if x in Heads(a) {
        var g :| 0 <= g < |a| && Heads(a)[g] == x;
        var h := GroupSharesHead(a, b, n, same, g);
        assert Heads(b)[h] == x;
      }
      if x in Heads(b) {
        var g :| 0 <= g < |b| && Heads(b)[g] == x;
        var h := GroupSharesHead(b, a, n, same, g);
        assert Heads(a)[h] == x;
      }
    }
    SortedListingIsUnique(Heads(a), Heads(b), Before);
    forall g | 0 <= g < |a| ensures a[g] == b[g] {
      var h := GroupSharesHead(a, b, n, same, g);
      assert Heads(a)[g] == Heads(b)[g] == b[g][0];
    }
  }
}

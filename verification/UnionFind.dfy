/** Union-find with path compression, smaller root wins.
  *
  * The parent list is updated in place. `Root` gives each state its meaning, and the class
  * methods are specified by how they change (or do not change) every element's root.
  */
module DisjointSets {

  // ---------- Parent lists ----------

  /** Every parent is at most its child, so following parents ends at a root. */
  ghost predicate Descending(p: seq<nat>) {
    forall i :: 0 <= i < |p| ==> p[i] <= i
  }

  ghost function Root(p: seq<nat>, x: nat): (r: nat)
    requires Descending(p) && x < |p|
    ensures r <= x && p[r] == r
  {
    if p[x] == x then x else Root(p, p[x])
  }

  ghost predicate SameRoots(p: seq<nat>, q: seq<nat>)
    requires Descending(p) && Descending(q)
  {
    |p| == |q| && forall x: nat :: x < |p| ==> Root(p, x) == Root(q, x)
  }

  /** A root is the smallest member of its class. */
  lemma RootIsMinimum(p: seq<nat>, x: nat, y: nat)
    requires Descending(p) && x < |p| && y < |p| && Root(p, x) == Root(p, y)
    ensures Root(p, x) <= y && Root(p, Root(p, x)) == Root(p, x)
  {
  }

  lemma {:induction false} CompressedRoot(p: seq<nat>, x: nat, y: nat)
    requires Descending(p) && x < |p| && y < |p|
    ensures Descending(p[x := Root(p, x)]) && Root(p[x := Root(p, x)], y) == Root(p, y)
  {
    var q := p[x := Root(p, x)];
    if q[y] != y {
      CompressedRoot(p, x, q[y]);
    }
  }

  /** Pointing an element straight at its root changes no element's root. */
  lemma CompressionKeepsRoots(p: seq<nat>, x: nat)
    requires Descending(p) && x < |p|
    ensures Descending(p[x := Root(p, x)]) && SameRoots(p, p[x := Root(p, x)])
  {
    CompressedRoot(p, x, x);
    forall y: nat | y < |p| ensures Root(p[x := Root(p, x)], y) == Root(p, y) {
      CompressedRoot(p, x, y);
    }
  }

  /** The root of y after the larger root of two has been linked to the smaller. */
  ghost function MergedRoot(p: seq<nat>, ra: nat, rb: nat, y: nat): nat
    requires Descending(p) && y < |p|
  {
    if Root(p, y) == ra || Root(p, y) == rb then (if ra <= rb then ra else rb) else Root(p, y)
  }

  lemma {:induction false} LinkMerges(p: seq<nat>, lo: nat, hi: nat, y: nat)
    requires Descending(p) && lo < hi < |p| && p[lo] == lo && p[hi] == hi && y < |p|
    ensures Descending(p[hi := lo]) && Root(p[hi := lo], y) == MergedRoot(p, lo, hi, y)
  {
    var q := p[hi := lo];
    if y == hi {
      assert q[lo] == lo;
    } else if p[y] != y {
      LinkMerges(p, lo, hi, p[y]);
    }
  }

  /** y is met when following parents from x. */
  ghost predicate OnPath(p: seq<nat>, x: nat, y: nat)
    requires Descending(p) && x < |p|
  {
    y == x || (p[x] != x && OnPath(p, p[x], y))
  }

  // ---------- The structure ----------

  class UnionFind {
    const parent: array<nat>

    ghost predicate Valid()
      reads parent
    {
      Descending(parent[..])
    }

    ghost function RootOf(x: nat): nat
      requires Valid() && x < parent.Length
      reads parent
    {
      Root(parent[..], x)
    }

    constructor (n: nat)
      ensures Valid() && fresh(parent) && parent.Length == n
      ensures forall x: nat :: x < n ==> RootOf(x) == x
    {
      parent := new nat[n](i => i);
    }

    /** The root of x. Every element met on the way then points straight at it, and no root changes. */
    method Find(x: nat) returns (root: nat)
      requires Valid() && x < parent.Length
      modifies parent
      ensures Valid() && SameRoots(old(parent[..]), parent[..])
      ensures root == old(RootOf(x)) && root < parent.Length && parent[root] == root
      ensures forall y: nat :: y < parent.Length && OnPath(old(parent[..]), x, y) ==> parent[y] == root
    {
      root := x;
      while parent[root] != root
        invariant root <= x && Root(parent[..], root) == Root(parent[..], x)
        decreases root
      {
        root := parent[root];
      }
      var y: nat := x;
      while parent[y] != root
        invariant y < parent.Length && Valid() && SameRoots(old(parent[..]), parent[..])
        invariant RootOf(y) == root && root < parent.Length && parent[root] == root
        invariant forall z: nat :: z <= y ==> parent[z] == old(parent[z])
        invariant forall z: nat :: z < parent.Length && OnPath(old(parent[..]), x, z) ==>
          parent[z] == root || OnPath(old(parent[..]), y, z)
        decreases y
      {
        CompressionKeepsRoots(parent[..], y);
        var next := parent[y];
        ghost var before := parent[..];
        parent[y] := root;
        assert parent[..] == before[y := Root(before, y)];
        y := next;
      }
    }

    /** Merges exactly the classes of a and b; all other roots stay. */
    method Union(a: nat, b: nat)
      requires Valid() && a < parent.Length && b < parent.Length
      modifies parent
      ensures Valid()
      ensures forall y: nat :: y < parent.Length ==>
        RootOf(y) == MergedRoot(old(parent[..]), old(RootOf(a)), old(RootOf(b)), y)
    {
      var ra := Find(a);
      var rb := Find(b);
      if ra != rb {
        ghost var before := parent[..];
        var lo, hi := if ra < rb then ra else rb, if ra < rb then rb else ra;
        parent[hi] := lo;
        assert parent[..] == before[hi := lo];
        LinkMerges(before, lo, hi, lo);
        forall y: nat | y < parent.Length ensures RootOf(y) == MergedRoot(before, ra, rb, y) {
          LinkMerges(before, lo, hi, y);
        }
      }
    }
  }
}

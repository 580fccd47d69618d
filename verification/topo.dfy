/** The depth-first topological sort and the in-place reversal that
    `BackwardPass` runs before accumulating gradients (grad/engine.go). */
module Topo {
  import opened Engine

  /** The nodes reachable from `n` by following children, `n` included. */
  ghost function Reach(g: Graph, n: nat): set<nat>
    requires WellFormed(g) && n < |g|
    decreases n
  {
    match g[n].op
    case Leaf => {n}
    case Addition(a, b) => {n} + Reach(g, a) + Reach(g, b)
    case Multiplication(a, b) => {n} + Reach(g, a) + Reach(g, b)
    case Power(x, _) => {n} + Reach(g, x)
    case Rectifier(x) => {n} + Reach(g, x)
  }

  /** Everything reachable from `n` lies at or below `n`. */
  lemma {:induction false} ReachBelow(g: Graph, n: nat)
    requires WellFormed(g) && n < |g|
    ensures forall m :: m in Reach(g, n) ==> m <= n
    decreases n
  {
    match g[n].op
    case Leaf =>
    case Addition(a, b) => ReachBelow(g, a); ReachBelow(g, b);
    case Multiplication(a, b) => ReachBelow(g, a); ReachBelow(g, b);
    case Power(x, _) => ReachBelow(g, x);
    case Rectifier(x) => ReachBelow(g, x);
  }

  /** A node reaches itself and, through each child, everything the child
      reaches; nothing else. */
  lemma ReachUnfold(g: Graph, n: nat)
    requires WellFormed(g) && n < |g|
    ensures forall c :: c in Children(g[n].op) ==> c < n && Reach(g, c) <= Reach(g, n)
    ensures forall m :: m in Reach(g, n) && m != n ==> exists c :: c in Children(g[n].op) && m in Reach(g, c)
  {
    ChildrenBelow(g[n].op, n);
    match g[n].op
    case Leaf =>
    case Addition(a, b) => assert a in Children(g[n].op) && b in Children(g[n].op);
    case Multiplication(a, b) => assert a in Children(g[n].op) && b in Children(g[n].op);
    case Power(x, _) => assert x in Children(g[n].op);
    case Rectifier(x) => assert x in Children(g[n].op);
  }

  /** The reachable set is closed under taking children. */
  lemma {:induction false} ReachClosed(g: Graph, n: nat, m: nat, c: nat)
    requires WellFormed(g) && n < |g| && m < |g|
    requires m in Reach(g, n) && c in Children(g[m].op)
    ensures c in Reach(g, n)
    decreases n
  {
    ReachBelow(g, n);
    ReachUnfold(g, n);
    if m == n {
    } else {
      var d :| d in Children(g[n].op) && m in Reach(g, d);
      ReachClosed(g, d, m, c);
    }
  }

  /** Reachability reads only the operations, never values or gradients. */
  lemma {:induction false} ReachFrame(g: Graph, h: Graph, n: nat)
    requires WellFormed(g) && SameShape(g, h) && n < |g|
    ensures WellFormed(h) && Reach(h, n) == Reach(g, n)
    decreases n
  {
    SameShapeWellFormed(g, h);
    match g[n].op
    case Leaf =>
    case Addition(a, b) => ReachFrame(g, h, a); ReachFrame(g, h, b);
    case Multiplication(a, b) => ReachFrame(g, h, a); ReachFrame(g, h, b);
    case Power(x, _) => ReachFrame(g, h, x);
    case Rectifier(x) => ReachFrame(g, h, x);
  }

  function Members<T>(s: seq<T>): set<T>
  {
    set x | x in s
  }

  predicate Distinct<T(==)>(s: seq<T>)
  {
    forall i, j :: 0 <= i < j < |s| ==> s[i] != s[j]
  }

  /** `order` lists distinct nodes of `g`, each after all of its children. */
  predicate Sorted(g: Graph, order: seq<nat>)
  {
    && (forall i :: 0 <= i < |order| ==> order[i] < |g|)
    && Distinct(order)
    && (forall i, c :: 0 <= i < |order| && c in Children(g[order[i]].op) ==> c in order[..i])
  }

  /** A sorted order that lists `n` lists everything `n` reaches. */
  lemma {:induction false} SortedCoversReach(g: Graph, order: seq<nat>, n: nat)
    requires WellFormed(g) && n < |g| && Sorted(g, order) && n in order
    ensures Reach(g, n) <= Members(order)
    decreases n
  {
    ReachUnfold(g, n);
    var i :| 0 <= i < |order| && order[i] == n;
    forall m | m in Reach(g, n)
      ensures m in Members(order)
    {
      if m != n {
        var c :| c in Children(g[n].op) && m in Reach(g, c);
        assert c in order[..i];
        SortedCoversReach(g, order, c);
      }
    }
  }

  /** Listing a new node whose children are all listed keeps the order
      sorted. */
  lemma SortedAppend(g: Graph, order: seq<nat>, n: nat)
    requires Sorted(g, order) && n < |g| && n !in Members(order)
    requires Children(g[n].op) <= Members(order)
    ensures Sorted(g, order + [n])
    ensures Members(order + [n]) == Members(order) + {n}
  {
    var o := order + [n];
    assert o[..|order|] == order;
    forall i, c | 0 <= i < |o| && c in Children(g[o[i]].op)
      ensures c in o[..i]
    {
      if i < |order| {
        assert o[..i] == order[..i];
      }
    }
  }

  /** The recursive `topologicalSort`. `visited` holds the nodes already
      listed plus the ancestors whose calls are still running (all above
      `node`). A new node is marked visited, its children are sorted in
      whatever order the children set yields them, and the node is listed
      last. */
  method TopologicalSort(g: Graph, node: nat, visited: set<nat>, order: seq<nat>)
    returns (visited': set<nat>, order': seq<nat>)
    requires WellFormed(g) && node < |g|
    requires Sorted(g, order) && Members(order) <= visited
    requires forall m :: m in visited && m !in Members(order) ==> node < m
    ensures Sorted(g, order') && order <= order'
    ensures Members(order') == Members(order) + Reach(g, node)
    ensures forall i :: |order| <= i < |order'| ==> order'[i] !in visited
    ensures visited' == visited + Reach(g, node)
    decreases node
  {
    ReachBelow(g, node);
    ReachUnfold(g, node);
    if node in visited {
      // Not a running ancestor, so already listed with all it reaches.
      SortedCoversReach(g, order, node);
      return visited, order;
    }
    visited' := visited + {node};
    order' := order;
    var todo := Children(g[node].op);
    while todo != {}
      invariant todo <= Children(g[node].op)
      invariant Sorted(g, order') && order <= order'
      invariant visited' == visited + {node} + Members(order')
      invariant node !in Members(order')
      invariant Members(order') <= Members(order) + Reach(g, node)
      invariant forall c :: c in Children(g[node].op) && c !in todo ==> Reach(g, c) <= Members(order')
      invariant forall i :: |order| <= i < |order'| ==> order'[i] !in visited
      decreases todo
    {
      var c :| c in todo;
      todo := todo - {c};
      ReachBelow(g, c);
      var before := order';
      visited', order' := TopologicalSort(g, c, visited', order');
      assert forall i :: |order| <= i < |before| ==> order'[i] == before[i];
    }
    SortedAppend(g, order', node);
    order' := order' + [node];
  }

  /** `topologicalSort` from an empty visited set: every node reachable
      from `root` exactly once, each after all of its children. */
  method TopologicalOrder(g: Graph, root: nat) returns (order: seq<nat>)
    requires WellFormed(g) && root < |g|
    ensures Sorted(g, order)
    ensures Members(order) == Reach(g, root)
  {
    var visited;
    visited, order := TopologicalSort(g, root, {}, []);
  }

  /** `reverse`: swaps the ends inward, two indices meeting in the middle. */
  method Reverse<T>(s: seq<T>) returns (r: seq<T>)
    ensures |r| == |s|
    ensures forall k :: 0 <= k < |s| ==> r[k] == s[|s| - 1 - k]
  {
    r := s;
    var i, j := 0, |r| - 1;
    while i < j
      invariant 0 <= i && j == |s| - 1 - i && i <= j + 2
      invariant |r| == |s|
      invariant forall k :: 0 <= k < i || (j < k < |s|) ==> r[k] == s[|s| - 1 - k]
      invariant forall k :: i <= k <= j ==> r[k] == s[k]
    {
      r := r[i := r[j]][j := r[i]];
      i, j := i + 1, j - 1;
    }
  }

  /** In the reverse of a sorted order no node comes after one of its
      parents: when a node's rule runs, every parent has already run. */
  lemma ReversedParentsFirst(g: Graph, order: seq<nat>, rev: seq<nat>)
    requires Sorted(g, order) && |rev| == |order|
    requires forall k :: 0 <= k < |order| ==> rev[k] == order[|order| - 1 - k]
    ensures forall k :: 0 <= k < |rev| ==> rev[k] < |g|
    ensures Distinct(rev) && Members(rev) == Members(order)
    ensures forall k, m :: 0 <= k < m < |rev| ==> rev[k] !in Children(g[rev[m]].op)
  {
    var n := |order|;
    forall k, m | 0 <= k < m < n
      ensures rev[k] !in Children(g[rev[m]].op)
    {
      var p, q := n - 1 - k, n - 1 - m;
      assert forall l :: 0 <= l < q ==> order[..q][l] != order[p];
      assert order[p] !in order[..q];
    }
    forall x | x in Members(order) ensures x in Members(rev) {
      var l :| 0 <= l < n && order[l] == x;
      assert rev[n - 1 - l] == x;
    }
  }
}

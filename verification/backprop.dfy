/** `BackwardPass` of grad/engine.go: seed the root's gradient with 1, sort
    the reachable nodes topologically, reverse the order and run each node's
    backward rule once. Its contract is the chain rule: every reachable
    node's gradient grows by the sum, over its reachable parents, of the
    parent's partial derivative times the parent's final gradient. */
module Backprop {
  import opened Engine
  import opened Topo

  /** The local derivatives of `g` as a function value: entry `(p, j)` is
      node `p`'s partial derivative with respect to node `j`. */
  ghost function Coefs(g: Graph): (nat, nat) -> real
    requires WellFormed(g)
  {
    (p: nat, j: nat) => if p < |g| then Partial(g, p, j) else 0.0
  }

  /** `coef` agrees with the local derivatives of `g` on every node of `g`.
      The proofs below work with such a `coef` rather than with `Coefs(g)`
      itself, so that they never unfold `Partial` where it is not needed. */
  ghost predicate Tabulates(g: Graph, coef: (nat, nat) -> real)
    requires WellFormed(g)
  {
    forall p: nat, j: nat {:trigger Partial(g, p, j)} :: p < |g| ==> coef(p, j) == Partial(g, p, j)
  }

  lemma CoefsTabulate(g: Graph)
    requires WellFormed(g)
    ensures Tabulates(g, Coefs(g))
  {
  }

  /** Two tables of the same graph agree on its nodes. */
  lemma TabulatesUnique(g: Graph, c: (nat, nat) -> real, c': (nat, nat) -> real)
    requires WellFormed(g) && Tabulates(g, c) && Tabulates(g, c')
    ensures forall p: nat, j: nat :: p < |g| ==> c(p, j) == c'(p, j)
  {
    forall p: nat, j: nat | p < |g|
      ensures c(p, j) == c'(p, j)
    {
      assert c(p, j) == Partial(g, p, j);
    }
  }

  /** Only a node's operands, all earlier nodes, have a nonzero entry. */
  lemma CoefNonzero(g: Graph, coef: (nat, nat) -> real, q: nat, j: nat)
    requires WellFormed(g) && Tabulates(g, coef) && q < |g|
    ensures coef(q, j) != 0.0 ==> j in Children(g[q].op) && j < q
  {
    assert coef(q, j) == Partial(g, q, j);
    OperandIsChild(g[q].op, j);
  }

  /** `p`'s term in `j`'s sum: its coefficient for `j` times its gradient in
      `r`, when `p` is in `done`. */
  ghost function Term(coef: (nat, nat) -> real, r: Graph, done: set<nat>, p: nat, j: nat): real
    requires p < |r|
  {
    if p in done then coef(p, j) * r[p].grad else 0.0
  }

  /** The chain-rule sum for node `j`: over the nodes `p` of `done` with
      `j < p <= hi`, `p`'s coefficient for `j` times `p`'s gradient in `r`.
      With `Coefs(g)` only the parents of `j` contribute. */
  ghost function Incoming(coef: (nat, nat) -> real, r: Graph, done: set<nat>, j: nat, hi: nat): real
    requires hi < |r|
    decreases hi
  {
    if hi <= j then 0.0
    else Incoming(coef, r, done, j, hi - 1) + Term(coef, r, done, hi, j)
  }

  /** The sum only looks at members of `done` in `(j, hi]` and their
      gradients. */
  lemma {:induction false} IncomingAgree(coef: (nat, nat) -> real, r: Graph, r': Graph, d: set<nat>, d': set<nat>, j: nat, hi: nat)
    requires hi < |r| && |r'| == |r|
    requires forall p :: j < p <= hi ==> (p in d <==> p in d')
    requires forall p :: j < p <= hi && p in d ==> r'[p].grad == r[p].grad
    ensures Incoming(coef, r', d', j, hi) == Incoming(coef, r, d, j, hi)
    decreases hi
  {
    if hi > j {
      IncomingAgree(coef, r, r', d, d', j, hi - 1);
      assert Term(coef, r', d', hi, j) == Term(coef, r, d, hi, j);
    }
  }

  /** Adding `q` to `done`, with the gradients of `done` and of `q` left
      alone, adds `q`'s term to every sum below `q`. */
  lemma {:induction false} IncomingStep(coef: (nat, nat) -> real, r: Graph, r': Graph, done: set<nat>, q: nat, j: nat, hi: nat)
    requires hi < |r| && |r'| == |r|
    requires q !in done && q <= hi
    requires forall p :: p in done && p <= hi ==> r'[p].grad == r[p].grad
    requires r'[q].grad == r[q].grad
    ensures Incoming(coef, r', done + {q}, j, hi)
         == Incoming(coef, r, done, j, hi) + (if j < q then Term(coef, r, {q}, q, j) else 0.0)
    decreases hi
  {
    if hi <= j {
    } else if q == hi {
      IncomingAgree(coef, r, r', done, done + {q}, j, hi - 1);
      assert Term(coef, r', done + {q}, hi, j) == Term(coef, r, {q}, q, j);
      assert Term(coef, r, done, hi, j) == 0.0;
    } else {
      IncomingStep(coef, r, r', done, q, j, hi - 1);
      assert Term(coef, r', done + {q}, hi, j) == Term(coef, r, done, hi, j);
    }
  }

  /** With no member of `done` in `(j, hi]` the sum is empty. */
  lemma {:induction false} IncomingNone(coef: (nat, nat) -> real, r: Graph, done: set<nat>, j: nat, hi: nat)
    requires hi < |r|
    requires forall p :: j < p <= hi ==> p !in done
    ensures Incoming(coef, r, done, j, hi) == 0.0
    decreases hi
  {
    if hi > j {
      IncomingNone(coef, r, done, j, hi - 1);
    }
  }

  /** When `q` is the only member of `done` in `(j, hi]` with a nonzero
      coefficient for `j`, the sum is `q`'s term alone. */
  lemma {:induction false} IncomingOnly(coef: (nat, nat) -> real, r: Graph, done: set<nat>, j: nat, hi: nat, q: nat)
    requires hi < |r| && q in done
    requires forall p :: j < p <= hi && p in done && p != q ==> coef(p, j) == 0.0
    ensures Incoming(coef, r, done, j, hi) == if j < q <= hi then coef(q, j) * r[q].grad else 0.0
    decreases hi
  {
    if hi > j {
      IncomingOnly(coef, r, done, j, hi - 1, q);
    }
  }

  /** Two coefficient functions that agree up to `hi` give the same sums. */
  lemma {:induction false} IncomingCongruent(c: (nat, nat) -> real, c': (nat, nat) -> real, r: Graph, done: set<nat>, j: nat, hi: nat)
    requires hi < |r|
    requires forall p: nat, k: nat :: p <= hi ==> c(p, k) == c'(p, k)
    ensures Incoming(c, r, done, j, hi) == Incoming(c', r, done, j, hi)
    decreases hi
  {
    if hi > j {
      IncomingCongruent(c, c', r, done, j, hi - 1);
      assert c(hi, j) == c'(hi, j);
    }
  }

  /** When a rule moves every gradient by `q`'s coefficient times `q`'s
      gradient, and `q` has a zero coefficient for itself and for every
      member of `done`, each gradient minus its sum is unchanged once `q`
      joins `done`. */
  lemma IncomingShift(coef: (nat, nat) -> real, r: Graph, r': Graph, root: nat, done: set<nat>, q: nat, j: nat)
    requires root < |r| && |r'| == |r| && j < |r|
    requires q <= root && q !in done
    requires forall k :: q <= k ==> coef(q, k) == 0.0
    requires forall p :: p in done && p <= root ==> coef(q, p) == 0.0
    requires forall k :: 0 <= k < |r| ==> r'[k].grad == r[k].grad + coef(q, k) * r[q].grad
    ensures r'[j].grad - Incoming(coef, r', done + {q}, j, root) == r[j].grad - Incoming(coef, r, done, j, root)
  {
    assert coef(q, q) == 0.0;
    assert r'[q].grad == r[q].grad + coef(q, q) * r[q].grad;
    forall p | p in done && p <= root
      ensures r'[p].grad == r[p].grad
    {
      assert r'[p].grad == r[p].grad + coef(q, p) * r[q].grad;
    }
    IncomingStep(coef, r, r', done, q, j, root);
    assert r'[j].grad == r[j].grad + coef(q, j) * r[q].grad;
    CoefZeroTerm(coef, r, q, j);
  }

  /** `q`'s term for `j` is `q`'s share for `j` when `j < q`, and the share
      is 0 otherwise once the coefficient vanishes. */
  lemma CoefZeroTerm(coef: (nat, nat) -> real, r: Graph, q: nat, j: nat)
    requires q < |r|
    ensures Term(coef, r, {q}, q, j) == coef(q, j) * r[q].grad
  {
  }

  /** A node's rule in a graph of the same shape as `g` moves a gradient
      by the share the local derivatives of `g` give it. */
  lemma RuleShareAt(g: Graph, coef: (nat, nat) -> real, r: Graph, q: nat, r': Graph, k: nat)
    requires WellFormed(g) && Tabulates(g, coef) && SameShape(g, r) && q < |g| && k < |g|
    requires WellFormed(r) && SharesPassed(r, q, r')
    ensures r'[k].grad == r[k].grad + coef(q, k) * r[q].grad
  {
    PartialFrame(g, r, q, k);
    SharesPassedAt(r, q, r', k, coef(q, k));
  }

  lemma RuleShares(g: Graph, coef: (nat, nat) -> real, r: Graph, q: nat, r': Graph)
    requires WellFormed(g) && Tabulates(g, coef) && SameShape(g, r) && q < |g|
    requires WellFormed(r) && SharesPassed(r, q, r')
    ensures forall k :: 0 <= k < |r| ==> r'[k].grad == r[k].grad + coef(q, k) * r[q].grad
  {
    forall k | 0 <= k < |r|
      ensures r'[k].grad == r[k].grad + coef(q, k) * r[q].grad
    {
      RuleShareAt(g, coef, r, q, r', k);
    }
  }

  /** What `BackwardPass` keeps true between two rules: outside the nodes
      the root reaches nothing has moved since seeding, and every gradient is
      its seeded value plus the chain-rule sum over the parents in `done`,
      the nodes whose rules have run. */
  ghost predicate Accumulated(coef: (nat, nat) -> real, g: Graph, seeded: Graph, r: Graph, root: nat, done: set<nat>)
    requires WellFormed(g) && root < |g|
  {
    && SameShape(g, r) && |seeded| == |g|
    && (forall j :: 0 <= j < |g| && j !in Reach(g, root) ==> r[j] == seeded[j])
    && (forall j :: 0 <= j < |g| ==> r[j].grad == seeded[j].grad + Incoming(coef, r, done, j, root))
  }

  /** The coefficient facts `IncomingShift` needs, for a node none of whose
      children is in `done`. */
  lemma CoefsOfRule(g: Graph, coef: (nat, nat) -> real, r: Graph, r': Graph, root: nat, done: set<nat>, q: nat)
    requires WellFormed(g) && Tabulates(g, coef) && SameShape(g, r) && q < |g|
    requires forall p :: p in done && p <= root ==> p !in Children(g[q].op)
    requires WellFormed(r) && SharesPassed(r, q, r')
    ensures forall k :: q <= k ==> coef(q, k) == 0.0
    ensures forall p :: p in done && p <= root ==> coef(q, p) == 0.0
    ensures forall k :: 0 <= k < |r| ==> r'[k].grad == r[k].grad + coef(q, k) * r[q].grad
  {
    RuleShares(g, coef, r, q, r');
    forall k | q <= k
      ensures coef(q, k) == 0.0
    {
      CoefNonzero(g, coef, q, k);
    }
    forall p | p in done && p <= root
      ensures coef(q, p) == 0.0
    {
      CoefNonzero(g, coef, q, p);
    }
  }

  /** Running `q`'s rule moves each gradient by exactly `q`'s term of the
      chain-rule sum once `q` joins `done`. */
  lemma IncomingAfterRule(coef: (nat, nat) -> real, seeded: Graph, r: Graph, r': Graph, root: nat, done: set<nat>, q: nat)
    requires root < |r| && |r'| == |r| && |seeded| == |r|
    requires q <= root && q !in done
    requires forall k :: q <= k ==> coef(q, k) == 0.0
    requires forall p :: p in done && p <= root ==> coef(q, p) == 0.0
    requires forall k :: 0 <= k < |r| ==> r'[k].grad == r[k].grad + coef(q, k) * r[q].grad
    requires forall j :: 0 <= j < |r| ==> r[j].grad == seeded[j].grad + Incoming(coef, r, done, j, root)
    ensures forall j :: 0 <= j < |r| ==> r'[j].grad == seeded[j].grad + Incoming(coef, r', done + {q}, j, root)
  {
    forall j | 0 <= j < |r|
      ensures r'[j].grad == seeded[j].grad + Incoming(coef, r', done + {q}, j, root)
    {
      IncomingShift(coef, r, r', root, done, q, j);
    }
  }

  /** A reachable node's rule touches only nodes the root reaches. */
  lemma RuleStaysInReach(g: Graph, coef: (nat, nat) -> real, r: Graph, r': Graph, root: nat, q: nat)
    requires WellFormed(g) && Tabulates(g, coef) && root < |g| && SameShape(g, r)
    requires q < |g| && q in Reach(g, root)
    requires WellFormed(r) && SharesPassed(r, q, r')
    ensures forall j :: 0 <= j < |g| && j !in Reach(g, root) ==> r'[j] == r[j]
  {
    RuleShares(g, coef, r, q, r');
    forall j | 0 <= j < |g| && j !in Reach(g, root)
      ensures r'[j] == r[j]
    {
      CoefNonzero(g, coef, q, j);
      if j in Children(g[q].op) {
        ReachClosed(g, root, q, j);
      }
    }
  }

  /** Running the rule of a reachable node none of whose children has run
      yet keeps `Accumulated`, with that node added to `done`. */
  lemma AccumulateStep(coef: (nat, nat) -> real, g: Graph, seeded: Graph, r: Graph, r': Graph, root: nat, done: set<nat>, q: nat)
    requires WellFormed(g) && Tabulates(g, coef) && root < |g| && Accumulated(coef, g, seeded, r, root, done)
    requires q < |g| && q in Reach(g, root) && q !in done
    requires forall p :: p in done ==> p !in Children(g[q].op)
    requires WellFormed(r) && SharesPassed(r, q, r')
    ensures Accumulated(coef, g, seeded, r', root, done + {q})
  {
    ReachBelow(g, root);
    CoefsOfRule(g, coef, r, r', root, done, q);
    IncomingAfterRule(coef, seeded, r, r', root, done, q);
    RuleStaysInReach(g, coef, r, r', root, q);
  }

  /** Before any rule runs, every chain-rule sum is empty. */
  lemma AccumulatedStart(coef: (nat, nat) -> real, g: Graph, seeded: Graph, root: nat)
    requires WellFormed(g) && root < |g| && SameShape(g, seeded)
    ensures Accumulated(coef, g, seeded, seeded, root, {})
  {
    forall j | 0 <= j < |g|
      ensures Incoming(coef, seeded, {}, j, root) == 0.0
    {
      IncomingNone(coef, seeded, {}, j, root);
    }
  }

  /** What the nodes before position `i` of a parents-first order tell
      about the node at `i`: it is new, and none of them is its child. */
  lemma PrefixFacts(g: Graph, rev: seq<nat>, i: nat)
    requires WellFormed(g) && i < |rev| && Distinct(rev)
    requires forall k :: 0 <= k < |rev| ==> rev[k] < |g|
    requires forall k, m :: 0 <= k < m < |rev| ==> rev[k] !in Children(g[rev[m]].op)
    ensures rev[i] !in Members(rev[..i])
    ensures forall p :: p in Members(rev[..i]) ==> p !in Children(g[rev[i]].op)
    ensures Members(rev[..i + 1]) == Members(rev[..i]) + {rev[i]}
  {
    assert forall k :: 0 <= k < i ==> rev[..i][k] == rev[k];
    assert rev[..i + 1] == rev[..i] + [rev[i]];
  }

  /** The loop of `BackwardPass`: runs the rule of each node of `rev` in
      turn, every parent before its children. */
  method RunRules(ghost coef: (nat, nat) -> real, g: Graph, seeded: Graph, root: nat, rev: seq<nat>)
    returns (r: Graph)
    requires WellFormed(g) && Tabulates(g, coef) && root < |g| && SameShape(g, seeded)
    requires forall k :: 0 <= k < |rev| ==> rev[k] < |g| && rev[k] in Reach(g, root)
    requires Distinct(rev)
    requires forall k, m :: 0 <= k < m < |rev| ==> rev[k] !in Children(g[rev[m]].op)
    ensures Accumulated(coef, g, seeded, r, root, Members(rev))
  {
    r := seeded;
    AccumulatedStart(coef, g, seeded, root);
    assert Members(rev[..0]) == {} by { assert rev[..0] == []; }
    var i := 0;
    while i < |rev|
      invariant 0 <= i <= |rev|
      invariant Accumulated(coef, g, seeded, r, root, Members(rev[..i]))
    {
      var q := rev[i];
      ghost var done := Members(rev[..i]);
      PrefixFacts(g, rev, i);
      SameShapeWellFormed(g, r);
      var r' := Backward(r, q);
      AccumulateStep(coef, g, seeded, r, r', root, done, q);
      r := r';
      i := i + 1;
    }
    assert rev[..|rev|] == rev;
  }

  /** Once every reachable rule has run, the sums over the whole reachable
      set are those of `BackwardPass`'s contract. */
  lemma BackwardConclude(coef: (nat, nat) -> real, g: Graph, seeded: Graph, r: Graph, root: nat)
    requires WellFormed(g) && Tabulates(g, coef) && root < |g|
    requires seeded == g[root := g[root].(grad := 1.0)]
    requires Accumulated(coef, g, seeded, r, root, Reach(g, root))
    ensures SameShape(g, r) && WellFormed(r)
    ensures r[root].grad == 1.0
    ensures forall j :: 0 <= j < |g| && j !in Reach(g, root) ==> r[j] == g[j]
    ensures forall j :: j in Reach(g, root) && j != root ==>
      j < |g| && r[j].grad == g[j].grad + Incoming(Coefs(g), r, Reach(g, root), j, root)
  {
    ReachBelow(g, root);
    SameShapeWellFormed(g, r);
    IncomingNone(coef, r, Reach(g, root), root, root);
    CoefsTabulate(g);
    TabulatesUnique(g, coef, Coefs(g));
    forall j | j in Reach(g, root) && j != root
      ensures Incoming(coef, r, Reach(g, root), j, root) == Incoming(Coefs(g), r, Reach(g, root), j, root)
    {
      IncomingCongruent(coef, Coefs(g), r, Reach(g, root), j, root);
    }
  }

  /** `BackwardPass`. The root's gradient is set (not added) to 1; every
      other node reachable from the root ends with its old gradient plus the
      chain-rule sum over its reachable parents, each parent's final
      gradient times its partial derivative; nothing else changes. */
  method BackwardPass(g: Graph, root: nat) returns (r: Graph)
    requires WellFormed(g) && root < |g|
    ensures SameShape(g, r) && WellFormed(r)
    ensures r[root].grad == 1.0
    ensures forall j :: 0 <= j < |g| && j !in Reach(g, root) ==> r[j] == g[j]
    ensures forall j :: j in Reach(g, root) && j != root ==>
      j < |g| && r[j].grad == g[j].grad + Incoming(Coefs(g), r, Reach(g, root), j, root)
  {
    var seeded := g[root := g[root].(grad := 1.0)];
    CoefsTabulate(g);
    ghost var coef: (nat, nat) -> real :| Tabulates(g, coef);
    // The sort reads only children, which seeding the root leaves alone.
    var order := TopologicalOrder(g, root);
    var rev := Reverse(order);
    ReversedParentsFirst(g, order, rev);
    r := RunRules(coef, g, seeded, root, rev);
    BackwardConclude(coef, g, seeded, r, root);
  }

  /** `b := a.Mul(a)` then `b.BackwardPass()`: the two operand slots of the
      same node both credit it, so `a`'s gradient grows by exactly `2a`. */
  method SquareGradient(g: Graph, a: nat) returns (r: Graph, b: nat)
    requires WellFormed(g) && a < |g|
    ensures |r| == |g| + 1 && b == |g|
    ensures r[b].data == g[a].data * g[a].data && r[b].grad == 1.0
    ensures r[a].grad == g[a].grad + 2.0 * g[a].data
  {
    var s := Mul(g, a, a);
    b := s.id;
    r := BackwardPass(s.graph, b);
    ghost var h := s.graph;
    ReachBelow(h, a);
    assert Reach(h, b) == {b} + Reach(h, a);
    IncomingOnly(Coefs(h), r, Reach(h, b), a, b, b);
    assert Coefs(h)(b, a) == 2.0 * g[a].data;
  }

  /** The nodes a difference of two leaves reaches: itself, the negation,
      the `-1` leaf and the two operands. */
  lemma SubReach(h: Graph, a: nat, b: nat, n: nat)
    requires WellFormed(h) && n + 2 < |h| && a < n && b < n
    requires h[a].op == Leaf && h[b].op == Leaf && h[n].op == Leaf
    requires h[n + 1].op == Multiplication(b, n) && h[n + 2].op == Addition(a, n + 1)
    ensures Reach(h, n + 2) == {n + 2, a, n + 1, b, n}
  {
    assert Reach(h, a) == {a} && Reach(h, b) == {b} && Reach(h, n) == {n};
    assert Reach(h, n + 1) == {n + 1, b, n};
  }

  /** The local derivatives along a difference of two leaves: 1 from the
      difference to `a` and to the negation, -1 from the negation to `b`,
      and 0 from every other node it reaches to `a` or `b`. */
  lemma SubCoefs(h: Graph, a: nat, b: nat, n: nat)
    requires WellFormed(h) && n + 2 < |h| && a < n && b < n && a != b
    requires h[a].op == Leaf && h[b].op == Leaf && h[n] == Value(-1.0, 0.0, Leaf)
    requires h[n + 1].op == Multiplication(b, n) && h[n + 2].op == Addition(a, n + 1)
    ensures Coefs(h)(n + 2, a) == 1.0 && Coefs(h)(n + 2, n + 1) == 1.0 && Coefs(h)(n + 1, b) == -1.0
    ensures Coefs(h)(n + 1, a) == 0.0 && Coefs(h)(b, a) == 0.0 && Coefs(h)(n, a) == 0.0
    ensures Coefs(h)(n + 2, b) == 0.0 && Coefs(h)(a, b) == 0.0 && Coefs(h)(n, b) == 0.0
  {
  }

  /** What a backward pass from a difference of two leaves leaves in their
      gradients: `a` gains the difference's 1, `b` loses it through the
      negation. */
  lemma SubIncoming(h: Graph, r: Graph, a: nat, b: nat, n: nat)
    requires WellFormed(h) && n + 2 < |h| && a < n && b < n && a != b
    requires h[a].op == Leaf && h[b].op == Leaf && h[n] == Value(-1.0, 0.0, Leaf)
    requires h[n + 1].op == Multiplication(b, n) && h[n + 2].op == Addition(a, n + 1)
    requires SameShape(h, r) && r[n + 2].grad == 1.0 && h[n + 1].grad == 0.0
    requires forall j :: j in Reach(h, n + 2) && j != n + 2 ==>
      j < |h| && r[j].grad == h[j].grad + Incoming(Coefs(h), r, Reach(h, n + 2), j, n + 2)
    ensures r[a].grad == h[a].grad + 1.0 && r[b].grad == h[b].grad - 1.0
  {
    SubReach(h, a, b, n);
    SubCoefs(h, a, b, n);
    var reach := Reach(h, n + 2);
    // `a` is an operand of the difference node only.
    IncomingOnly(Coefs(h), r, reach, a, n + 2, n + 2);
    // `b` is an operand of the negation only, whose gradient ends at 1.
    IncomingOnly(Coefs(h), r, reach, n + 1, n + 2, n + 2);
    IncomingOnly(Coefs(h), r, reach, b, n + 2, n + 1);
  }

  /** `a.Sub(b)` of two distinct leaves, then `BackwardPass` from the
      difference: `a`'s gradient grows by 1 and `b`'s shrinks by 1. */
  method SubGradients(g: Graph, a: nat, b: nat) returns (r: Graph, out: nat)
    requires WellFormed(g) && a < |g| && b < |g| && a != b
    requires g[a].op == Leaf && g[b].op == Leaf
    ensures |r| == |g| + 3 && out == |g| + 2
    ensures r[out].data == g[a].data - g[b].data && r[out].grad == 1.0
    ensures r[a].grad == g[a].grad + 1.0
    ensures r[b].grad == g[b].grad - 1.0
  {
    var s := Sub(g, a, b);
    out := s.id;
    r := BackwardPass(s.graph, out);
    assert s.graph[a] == g[a] && s.graph[b] == g[b];
    SubIncoming(s.graph, r, a, b, |g|);
  }
}

/** The scalar autodiff engine of grad/engine.go, held in an arena.

    Every `*Value` of the Go code becomes an index into a `Graph`, a sequence
    of nodes. An operation appends one node whose operands are existing
    indices, so a node's operands always have smaller indices than the node
    itself and the graph is acyclic by construction. The per-node backward
    closures of the Go code become `Backward`, a dispatch on the node's
    operation tag. Values and gradients are mathematical reals. */
module Engine {
  import opened Optional

  /** The operation that produced a node, with its operands' arena indices.
      Subtraction, negation and division have no tag of their own: as in the
      Go code they are built from additions, multiplications and powers. */
  datatype Op =
    | Leaf
    | Addition(a: nat, b: nat)
    | Multiplication(a: nat, b: nat)
    | Power(x: nat, e: int)
    | Rectifier(x: nat)

  /** One node: its value, its accumulated gradient and its provenance. */
  datatype Value = Value(data: real, grad: real, op: Op)

  type Graph = seq<Value>

  /** The graph after an operation, and the index of the node it produced. */
  datatype Step = Step(graph: Graph, id: nat)

  /** How `Div` receives its divisor: a float, an int, or an existing node. */
  datatype Divisor = Scalar(f: real) | Whole(n: int) | Node(node: nat)

  // ---------------------------------------------------------------------
  // Powers with an integer exponent
  // ---------------------------------------------------------------------

  function NatPower(x: real, n: nat): (r: real)
    ensures x != 0.0 ==> r != 0.0
  {
    if n == 0 then 1.0 else x * NatPower(x, n - 1)
  }

  /** `x` raised to the integer `n`. A zero base with a negative exponent,
      which IEEE arithmetic turns into an infinity, gives 0 here. */
  function IntPower(x: real, n: int): (r: real)
    ensures x != 0.0 ==> r != 0.0
    ensures x == 0.0 ==> r == if n == 0 then 1.0 else 0.0
  {
    if n >= 0 then NatPower(x, n)
    else if x == 0.0 then 0.0
    else 1.0 / NatPower(x, -n)
  }

  /** Raising the exponent by one multiplies by a nonzero base, for every
      integer exponent. */
  lemma IntPowerSucc(x: real, n: int)
    requires x != 0.0
    ensures IntPower(x, n + 1) == x * IntPower(x, n)
  {
    if n < 0 {
      var p := NatPower(x, -n - 1);
      assert NatPower(x, -n) == x * p;
      assert x * (1.0 / (x * p)) == 1.0 / p;
    }
  }

  /** Powers of opposite exponents of a nonzero base are reciprocal. */
  lemma IntPowerInverse(x: real, n: int)
    requires x != 0.0
    ensures IntPower(x, n) * IntPower(x, -n) == 1.0
  {
    if n > 0 {
      assert IntPower(x, -n) == 1.0 / NatPower(x, n);
    } else if n < 0 {
      assert IntPower(x, n) == 1.0 / NatPower(x, -n);
    }
  }

  lemma IntPowerSmall(x: real)
    ensures IntPower(x, 0) == 1.0
    ensures IntPower(x, 1) == x
    ensures IntPower(x, 2) == x * x
    ensures x != 0.0 ==> IntPower(x, -1) == 1.0 / x
  {
  }

  // ---------------------------------------------------------------------
  // Children and well-formedness
  // ---------------------------------------------------------------------

  /** The children set of a node: the operands that are present, each once. */
  function NewSet(childA: Option<nat>, childB: Option<nat>): (r: set<nat>)
    ensures forall c :: c in r <==> childA == Some(c) || childB == Some(c)
    ensures |r| <= 2
    ensures childA.Some? && childA == childB ==> |r| == 1
    ensures childA.None? && childB.None? ==> r == {}
  {
    var s: set<nat> := if childA.Some? then {childA.value} else {};
    if childB.Some? then
      assert |s + {childB.value}| <= |s| + 1;
      s + {childB.value}
    else
      s
  }

  function Children(op: Op): set<nat>
  {
    match op
    case Leaf => NewSet(None, None)
    case Addition(a, b) => NewSet(Some(a), Some(b))
    case Multiplication(a, b) => NewSet(Some(a), Some(b))
    case Power(x, _) => NewSet(Some(x), None)
    case Rectifier(x) => NewSet(Some(x), None)
  }

  /** `j` is one of the operands of `op`. */
  predicate IsOperand(op: Op, j: nat)
  {
    match op
    case Leaf => false
    case Addition(a, b) => j == a || j == b
    case Multiplication(a, b) => j == a || j == b
    case Power(x, _) => j == x
    case Rectifier(x) => j == x
  }

  lemma OperandIsChild(op: Op, j: nat)
    ensures IsOperand(op, j) <==> j in Children(op)
  {
  }

  /** Every operand of `op` is below `n`. */
  predicate Below(op: Op, n: nat)
  {
    match op
    case Leaf => true
    case Addition(a, b) => a < n && b < n
    case Multiplication(a, b) => a < n && b < n
    case Power(x, _) => x < n
    case Rectifier(x) => x < n
  }

  lemma ChildrenBelow(op: Op, n: nat)
    ensures Below(op, n) <==> forall c :: c in Children(op) ==> c < n
  {
    match op
    case Leaf =>
    case Addition(a, b) => assert a in Children(op) && b in Children(op);
    case Multiplication(a, b) => assert a in Children(op) && b in Children(op);
    case Power(x, _) => assert x in Children(op);
    case Rectifier(x) => assert x in Children(op);
  }

  /** Every operand of a node is an earlier node. */
  predicate WellFormed(g: Graph)
  {
    forall i :: 0 <= i < |g| ==> Below(g[i].op, i)
  }

  /** `h` is `g` with nodes appended at the end. */
  predicate Extends(g: Graph, h: Graph)
  {
    |g| <= |h| && forall i :: 0 <= i < |g| ==> h[i] == g[i]
  }

  /** `g` and `h` have the same nodes up to their gradients. */
  predicate SameShape(g: Graph, h: Graph)
  {
    |g| == |h| && forall j :: 0 <= j < |g| ==> h[j].data == g[j].data && h[j].op == g[j].op
  }

  predicate OperandsIn(g: Graph, op: Op)
  {
    Below(op, |g|)
  }

  // ---------------------------------------------------------------------
  // Forward values
  // ---------------------------------------------------------------------

  /** The value an operation computes from its operands' current values. */
  function Eval(g: Graph, op: Op): real
    requires op != Leaf && OperandsIn(g, op)
  {
    match op
    case Addition(a, b) => g[a].data + g[b].data
    case Multiplication(a, b) => g[a].data * g[b].data
    case Power(x, e) => IntPower(g[x].data, e)
    case Rectifier(x) => if g[x].data <= 0.0 then 0.0 else g[x].data
  }

  /** `Eval` reads only the operands, which appending nodes leaves alone. */
  lemma EvalExtends(g: Graph, h: Graph, op: Op)
    requires op != Leaf && OperandsIn(g, op) && Extends(g, h)
    ensures OperandsIn(h, op) && Eval(h, op) == Eval(g, op)
  {
  }

  /** Appending a node keeps every earlier node consistent. */
  lemma ConsistentExtends(g: Graph, h: Graph)
    requires Consistent(g) && Extends(g, h) && WellFormed(h)
    requires forall i :: |g| <= i < |h| && h[i].op != Leaf ==> h[i].data == Eval(h, h[i].op)
    ensures Consistent(h)
  {
    forall i | 0 <= i < |g| && h[i].op != Leaf
      ensures h[i].data == Eval(h, h[i].op)
    {
      EvalExtends(g, h, g[i].op);
    }
  }

  /** Every computed node holds the value of its operation on its operands.
      Operations keep this; `Update` of a leaf that has parents breaks it. */
  predicate Consistent(g: Graph)
  {
    && WellFormed(g)
    && forall i :: 0 <= i < |g| && g[i].op != Leaf ==> g[i].data == Eval(g, g[i].op)
  }

  /** `r` is `g` with one node for `op` appended, its gradient 0. */
  predicate Appended(g: Graph, r: Step, op: Op)
  {
    && Extends(g, r.graph)
    && |r.graph| == |g| + 1
    && r.id == |g|
    && r.graph[r.id].op == op
    && r.graph[r.id].grad == 0.0
    && (WellFormed(g) ==> WellFormed(r.graph))
  }

  /** Appends the node computed by `op` from existing operands. */
  function Push(g: Graph, op: Op): (r: Step)
    requires op != Leaf && OperandsIn(g, op)
    ensures Appended(g, r, op)
    ensures r.graph[r.id].data == Eval(g, op)
  {
    var h := g + [Value(Eval(g, op), 0.0, op)];
    EvalExtends(g, h, op);
    Step(h, |g|)
  }

  // ---------------------------------------------------------------------
  // Node construction
  // ---------------------------------------------------------------------

  /** A leaf: the given value, gradient 0, no children. */
  function NewValue(g: Graph, d: real): (r: Step)
    ensures Appended(g, r, Leaf)
    ensures r.graph[r.id].data == d
    ensures Children(r.graph[r.id].op) == {}
  {
    Step(g + [Value(d, 0.0, Leaf)], |g|)
  }

  function Add(g: Graph, a: nat, b: nat): (r: Step)
    requires a < |g| && b < |g|
    ensures Appended(g, r, Addition(a, b))
    ensures r.graph[r.id].data == g[a].data + g[b].data
    ensures Children(r.graph[r.id].op) == {a, b}
  {
    Push(g, Addition(a, b))
  }

  function Mul(g: Graph, a: nat, b: nat): (r: Step)
    requires a < |g| && b < |g|
    ensures Appended(g, r, Multiplication(a, b))
    ensures r.graph[r.id].data == g[a].data * g[b].data
    ensures Children(r.graph[r.id].op) == {a, b}
    ensures a == b ==> |Children(r.graph[r.id].op)| == 1
  {
    Push(g, Multiplication(a, b))
  }

  function Pow(g: Graph, x: nat, e: int): (r: Step)
    requires x < |g|
    ensures Appended(g, r, Power(x, e))
    ensures r.graph[r.id].data == IntPower(g[x].data, e)
    ensures Children(r.graph[r.id].op) == {x}
  {
    Push(g, Power(x, e))
  }

  function Relu(g: Graph, x: nat): (r: Step)
    requires x < |g|
    ensures Appended(g, r, Rectifier(x))
    ensures 0.0 <= r.graph[r.id].data && g[x].data <= r.graph[r.id].data
    ensures r.graph[r.id].data == g[x].data || r.graph[r.id].data == 0.0
    ensures g[x].data > 0.0 <==> r.graph[r.id].data > 0.0
    ensures Children(r.graph[r.id].op) == {x}
  {
    Push(g, Rectifier(x))
  }

  /** `a * -1`, the multiplication by a fresh leaf holding -1. */
  function Neg(g: Graph, a: nat): (r: Step)
    requires a < |g|
    ensures Extends(g, r.graph) && |r.graph| == |g| + 2 && r.id == |g| + 1
    ensures r.graph[|g|] == Value(-1.0, 0.0, Leaf)
    ensures r.graph[r.id] == Value(-g[a].data, 0.0, Multiplication(a, |g|))
    ensures WellFormed(g) ==> WellFormed(r.graph)
  {
    var m := NewValue(g, -1.0);
    Mul(m.graph, a, m.id)
  }

  /** `a + (b * -1)`. */
  function Sub(g: Graph, a: nat, b: nat): (r: Step)
    requires a < |g| && b < |g|
    ensures Extends(g, r.graph) && |r.graph| == |g| + 3 && r.id == |g| + 2
    ensures r.graph[|g|] == Value(-1.0, 0.0, Leaf)
    ensures r.graph[|g| + 1] == Value(-g[b].data, 0.0, Multiplication(b, |g|))
    ensures r.graph[r.id] == Value(g[a].data - g[b].data, 0.0, Addition(a, |g| + 1))
    ensures WellFormed(g) ==> WellFormed(r.graph)
  {
    var n := Neg(g, b);
    Add(n.graph, a, n.id)
  }

  /** The value a divisor stands for. */
  function DivisorValue(g: Graph, o: Divisor): real
    requires o.Node? ==> o.node < |g|
  {
    match o
    case Scalar(f) => f
    case Whole(n) => n as real
    case Node(id) => g[id].data
  }

  /** Multiplying by the `-1` power of a nonzero divisor divides by it. */
  lemma Reciprocal(x: real, d: real)
    requires d != 0.0
    ensures x * IntPower(d, -1) == x / d
  {
    IntPowerSmall(d);
  }

  /** The node holding the divisor: a fresh leaf for a float or an int, the
      given node otherwise. */
  function DivisorNode(g: Graph, o: Divisor): (r: Step)
    requires o.Node? ==> o.node < |g|
    ensures Extends(g, r.graph) && r.id < |r.graph|
    ensures |r.graph| == |g| + (if o.Node? then 0 else 1)
    ensures r.graph[r.id].data == DivisorValue(g, o)
    ensures o.Node? ==> r.id == o.node
    ensures !o.Node? ==> r.id == |g| && r.graph[|g|] == Value(DivisorValue(g, o), 0.0, Leaf)
    ensures WellFormed(g) ==> WellFormed(r.graph)
  {
    match o
    case Scalar(f) => NewValue(g, f)
    case Whole(n) => NewValue(g, n as real)
    case Node(id) => Step(g, id)
  }

  /** `a * o^-1`; a float or int divisor first becomes a fresh leaf. */
  function Div(g: Graph, a: nat, o: Divisor): (r: Step)
    requires a < |g| && (o.Node? ==> o.node < |g|)
    ensures Extends(g, r.graph) && r.id == |r.graph| - 1
    ensures |r.graph| == |g| + (if o.Node? then 2 else 3)
    ensures !o.Node? ==> r.graph[|g|] == Value(DivisorValue(g, o), 0.0, Leaf)
    ensures r.graph[r.id - 1].op == Power(if o.Node? then o.node else |g|, -1)
    ensures r.graph[r.id].op == Multiplication(a, r.id - 1)
    ensures DivisorValue(g, o) != 0.0 ==> r.graph[r.id].data == g[a].data / DivisorValue(g, o)
    ensures WellFormed(g) ==> WellFormed(r.graph)
  {
    var s := DivisorNode(g, o);
    var p := Pow(s.graph, s.id, -1);
    var m := Mul(p.graph, a, p.id);
    var d := DivisorValue(g, o);
    assert m.graph[m.id].data == g[a].data * IntPower(d, -1);
    if d != 0.0 then Reciprocal(g[a].data, d); m else m
  }

  /** Appending a computed node keeps the graph consistent. */
  lemma PushConsistent(g: Graph, op: Op)
    requires Consistent(g) && op != Leaf && OperandsIn(g, op)
    ensures Consistent(Push(g, op).graph)
  {
    var h := Push(g, op).graph;
    EvalExtends(g, h, op);
    ConsistentExtends(g, h);
  }

  /** Appending a leaf keeps the graph consistent. */
  lemma NewValueConsistent(g: Graph, d: real)
    requires Consistent(g)
    ensures Consistent(NewValue(g, d).graph)
  {
    ConsistentExtends(g, NewValue(g, d).graph);
  }

  /** Subtraction's three nodes keep the graph consistent. */
  lemma SubConsistent(g: Graph, a: nat, b: nat)
    requires Consistent(g) && a < |g| && b < |g|
    ensures Consistent(Sub(g, a, b).graph)
  {
    var m := NewValue(g, -1.0);
    NewValueConsistent(g, -1.0);
    var n := Mul(m.graph, b, m.id);
    PushConsistent(m.graph, Multiplication(b, m.id));
    PushConsistent(n.graph, Addition(a, n.id));
  }

  /** Division's nodes keep the graph consistent. */
  lemma DivConsistent(g: Graph, a: nat, o: Divisor)
    requires Consistent(g) && a < |g| && (o.Node? ==> o.node < |g|)
    ensures Consistent(Div(g, a, o).graph)
  {
    var s := DivisorNode(g, o);
    if !o.Node? {
      NewValueConsistent(g, DivisorValue(g, o));
    }
    var p := Pow(s.graph, s.id, -1);
    PushConsistent(s.graph, Power(s.id, -1));
    PushConsistent(p.graph, Multiplication(a, p.id));
  }

  // ---------------------------------------------------------------------
  // Local derivatives and the backward rule
  // ---------------------------------------------------------------------

  /** The partial derivative of node `i` with respect to node `j`, counting
      an operand used twice twice (so `a * a` gives `2a`). The rectifier's
      derivative at exactly 0 is 1, the code's choice. */
  function Partial(g: Graph, i: nat, j: nat): (r: real)
    requires WellFormed(g) && i < |g|
    ensures r != 0.0 ==> IsOperand(g[i].op, j) && j < i
  {
    match g[i].op
    case Leaf => 0.0
    case Addition(a, b) => if j == a && j == b then 2.0 else if j == a || j == b then 1.0 else 0.0
    case Multiplication(a, b) =>
      if j == a && j == b then g[a].data + g[b].data
      else if j == a then g[b].data
      else if j == b then g[a].data
      else 0.0
    case Power(x, e) => if j == x then (e as real) * IntPower(g[x].data, e - 1) else 0.0
    case Rectifier(x) => if j == x && g[x].data >= 0.0 then 1.0 else 0.0
  }

  /** `Partial` reads only values and operations, never gradients. */
  lemma PartialFrame(g: Graph, h: Graph, i: nat, j: nat)
    requires WellFormed(g) && SameShape(g, h) && i < |g|
    ensures WellFormed(h) && Partial(h, i, j) == Partial(g, i, j)
  {
    assert forall k :: 0 <= k < |h| ==> h[k].op == g[k].op;
  }

  function AddGrad(g: Graph, j: nat, delta: real): (r: Graph)
    requires j < |g|
    ensures SameShape(g, r)
    ensures forall k :: 0 <= k < |g| ==> r[k].grad == g[k].grad + (if k == j then delta else 0.0)
  {
    g[j := g[j].(grad := g[j].grad + delta)]
  }

  /** A graph with the same values and operations is as well formed. */
  lemma SameShapeWellFormed(g: Graph, h: Graph)
    requires WellFormed(g) && SameShape(g, h)
    ensures WellFormed(h)
  {
    assert forall k :: 0 <= k < |h| ==> h[k].op == g[k].op;
  }

  /** Two successive gradient additions for operands `a` and `b` add up to
      one share of `(pa + pb) * outGrad`. */
  lemma TwoShares(isA: bool, isB: bool, da: real, db: real, outGrad: real, before: real, after: real)
    requires after == before + (if isA then da * outGrad else 0.0) + (if isB then db * outGrad else 0.0)
    ensures after == before + ((if isA then da else 0.0) + (if isB then db else 0.0)) * outGrad
  {
  }

  /** The gradient relation every backward rule establishes for node `i`. */
  predicate SharesPassed(g: Graph, i: nat, r: Graph)
    requires WellFormed(g) && i < |g|
  {
    && SameShape(g, r)
    && forall k :: 0 <= k < |g| ==> r[k].grad == g[k].grad + Partial(g, i, k) * g[i].grad
  }

  /** One node's gradient after a rule, for a known local derivative. */
  lemma SharesPassedAt(g: Graph, i: nat, r: Graph, k: nat, d: real)
    requires WellFormed(g) && i < |g| && k < |g| && SharesPassed(g, i, r) && Partial(g, i, k) == d
    ensures r[k].grad == g[k].grad + d * g[i].grad
  {
  }

  /** Adds `pa * outGrad` to operand `a`'s gradient, then `pb * outGrad` to
      operand `b`'s: a node used in both slots receives both shares. */
  function AddShares(g: Graph, a: nat, b: nat, pa: real, pb: real, outGrad: real): (r: Graph)
    requires a < |g| && b < |g|
    ensures SameShape(g, r)
    ensures forall k :: 0 <= k < |g| ==>
      r[k].grad == g[k].grad + ((if k == a then pa else 0.0) + (if k == b then pb else 0.0)) * outGrad
  {
    var g1 := AddGrad(g, a, pa * outGrad);
    var r := AddGrad(g1, b, pb * outGrad);
    forall k | 0 <= k < |g|
      ensures r[k].grad == g[k].grad + ((if k == a then pa else 0.0) + (if k == b then pb else 0.0)) * outGrad
    {
      TwoShares(k == a, k == b, pa, pb, outGrad, g[k].grad, r[k].grad);
    }
    r
  }

  /** The addition rule: each operand's gradient grows by `1 * out.grad`. */
  function BackwardAdd(g: Graph, i: nat): (r: Graph)
    requires WellFormed(g) && i < |g| && g[i].op.Addition?
    ensures SharesPassed(g, i, r)
  {
    AddShares(g, g[i].op.a, g[i].op.b, 1.0, 1.0, g[i].grad)
  }

  /** The multiplication rule: each operand's gradient grows by the other
      operand's value times `out.grad`; the second share reads the first
      operand's value, which the first share left alone. */
  function BackwardMul(g: Graph, i: nat): (r: Graph)
    requires WellFormed(g) && i < |g| && g[i].op.Multiplication?
    ensures SharesPassed(g, i, r)
  {
    var a, b := g[i].op.a, g[i].op.b;
    AddShares(g, a, b, g[b].data, g[a].data, g[i].grad)
  }

  /** The power rule: the base's gradient grows by `e * x^(e-1) * out.grad`. */
  function BackwardPow(g: Graph, i: nat): (r: Graph)
    requires WellFormed(g) && i < |g| && g[i].op.Power?
    ensures SharesPassed(g, i, r)
  {
    var x, e, outGrad := g[i].op.x, g[i].op.e, g[i].grad;
    AddGrad(g, x, (e as real) * IntPower(g[x].data, e - 1) * outGrad)
  }

  /** The rectifier rule: the operand's gradient grows by `out.grad` unless
      the operand is negative, and by `0 * out.grad` if it is. */
  function BackwardRelu(g: Graph, i: nat): (r: Graph)
    requires WellFormed(g) && i < |g| && g[i].op.Rectifier?
    ensures SharesPassed(g, i, r)
  {
    var x, outGrad := g[i].op.x, g[i].grad;
    if g[x].data < 0.0 then AddGrad(g, x, 0.0 * outGrad)
    else AddGrad(g, x, 1.0 * outGrad)
  }

  /** The rectifier rule as grad/engine.go writes it. `Relu` returns its
      node by value, so the node placed in the graph is a copy, while the
      derivative closure reads the gradient of the local original, which
      nothing ever updates from 0. Whatever the copy's gradient, the
      operand's gradient grows by a share of that 0. */
  function BackwardReluAsWritten(g: Graph, i: nat): (r: Graph)
    requires WellFormed(g) && i < |g| && g[i].op.Rectifier?
    ensures SameShape(g, r) && forall k :: 0 <= k < |g| ==> r[k].grad == g[k].grad
  {
    var x, localGrad := g[i].op.x, 0.0;
    if g[x].data < 0.0 then AddGrad(g, x, 0.0 * localGrad)
    else AddGrad(g, x, 1.0 * localGrad)
  }

  /** A rectifier of a positive leaf with gradient 1: the rule as written
      leaves the leaf's gradient at 0, where the derivative (1) times the
      rectifier's gradient (1) is due. */
  lemma ReluBlocksGradient()
    ensures var g := [Value(2.0, 0.0, Leaf), Value(2.0, 1.0, Rectifier(0))];
      && WellFormed(g)
      && BackwardReluAsWritten(g, 1)[0].grad == 0.0
      && BackwardRelu(g, 1)[0].grad == 1.0
  {
    var g := [Value(2.0, 0.0, Leaf), Value(2.0, 1.0, Rectifier(0))];
    assert Below(g[1].op, 1);
    assert Partial(g, 1, 0) == 1.0;
  }

  /** Runs node `i`'s backward rule, dispatched on its operation tag: each
      operand's gradient grows by the operand's share of `i`'s gradient. A
      leaf's rule does nothing. */
  method Backward(g: Graph, i: nat) returns (r: Graph)
    requires WellFormed(g) && i < |g|
    ensures SharesPassed(g, i, r) && WellFormed(r)
  {
    match g[i].op {
      case Leaf => r := g;
      case Addition(_, _) => r := BackwardAdd(g, i);
      case Multiplication(_, _) => r := BackwardMul(g, i);
      case Power(_, _) => r := BackwardPow(g, i);
      case Rectifier(_) => r := BackwardRelu(g, i);
    }
    SameShapeWellFormed(g, r);
  }

  // ---------------------------------------------------------------------
  // Parameter update and gradient reset
  // ---------------------------------------------------------------------

  /** One gradient-descent step on node `i`: only its value changes. */
  function Update(g: Graph, i: nat, learningRate: real): (r: Graph)
    requires i < |g|
    ensures |r| == |g|
    ensures r[i].data == g[i].data - learningRate * g[i].grad
    ensures r[i].grad == g[i].grad && r[i].op == g[i].op
    ensures forall j :: 0 <= j < |g| && j != i ==> r[j] == g[j]
    ensures WellFormed(g) ==> WellFormed(r)
  {
    g[i := g[i].(data := g[i].data - learningRate * g[i].grad)]
  }

  /** With a positive learning rate, `Update` moves a value against its
      gradient. */
  lemma UpdateDescends(g: Graph, i: nat, learningRate: real)
    requires i < |g| && learningRate > 0.0 && g[i].grad != 0.0
    ensures (Update(g, i, learningRate)[i].data - g[i].data) * g[i].grad < 0.0
  {
    var d := g[i].grad;
    assert d * d > 0.0;
    assert (Update(g, i, learningRate)[i].data - g[i].data) * d == -(learningRate * (d * d));
  }

  function SetGrad(g: Graph, i: nat, newGrad: real): (r: Graph)
    requires i < |g|
    ensures SameShape(g, r) && r[i].grad == newGrad
    ensures forall j :: 0 <= j < |g| && j != i ==> r[j] == g[j]
    ensures WellFormed(g) ==> WellFormed(r)
  {
    g[i := g[i].(grad := newGrad)]
  }
}

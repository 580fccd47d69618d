/** The fully connected network of grad/nn.go: neurons, layers and models
    whose weights and biases are nodes of the arena.

    The Go code draws initial weights from `math/rand`; here the draws are
    a parameter `rand`, the stream of uniform numbers in `[0, 1)` the
    generator would produce, and `drawn` counts how many have been used. */
module Network {
  import opened Optional
  import opened Engine
  import opened Utils

  /** A neuron: its weight nodes, its bias node and the `nonlin` flag, which
      the forward pass never reads. */
  datatype Neuron = Neuron(weights: seq<nat>, bias: nat, nonlin: bool)

  datatype Layer = Layer(neurons: seq<Neuron>)

  datatype Model = Model(layers: seq<Layer>)

  /** The graph after a construction, what was built and the number of
      random draws used so far. */
  datatype Built<T> = Built(graph: Graph, item: T, drawn: nat)

  /** Every index of `xs` names a node of `g`. */
  predicate NodesIn(g: Graph, xs: seq<nat>)
  {
    forall i :: 0 <= i < |xs| ==> xs[i] < |g|
  }

  predicate NeuronIn(g: Graph, n: Neuron)
  {
    NodesIn(g, n.weights) && n.bias < |g|
  }

  predicate LayerIn(g: Graph, l: Layer)
  {
    forall i :: 0 <= i < |l.neurons| ==> NeuronIn(g, l.neurons[i])
  }

  predicate ModelIn(g: Graph, m: Model)
  {
    forall l :: 0 <= l < |m.layers| ==> LayerIn(g, m.layers[l])
  }

  /** Appending nodes keeps every parameter a node of the graph. */
  lemma ModelInExtends(g: Graph, h: Graph, m: Model)
    requires ModelIn(g, m) && Extends(g, h)
    ensures ModelIn(h, m)
  {
  }

  // ---------------------------------------------------------------------
  // Construction
  // ---------------------------------------------------------------------

  /** The value `randFloats(-1, 1, n)` makes of the uniform draw `u`. */
  function InitialWeight(u: real): (r: real)
    ensures 0.0 <= u < 1.0 ==> -1.0 <= r < 1.0
  {
    -1.0 + u * (1.0 - -1.0)
  }

  /** `NewNeuron`: a bias leaf holding 0 first, then `inputNum` weight
      leaves holding the next draws mapped into `[-1, 1)`. */
  method NewNeuron(g: Graph, inputNum: nat, nonlin: bool, rand: nat -> real, drawn: nat)
    returns (r: Built<Neuron>)
    ensures Extends(g, r.graph) && |r.graph| == |g| + inputNum + 1
    ensures WellFormed(g) ==> WellFormed(r.graph)
    ensures r.drawn == drawn + inputNum
    ensures r.item.nonlin == nonlin && |r.item.weights| == inputNum
    ensures r.item.bias == |g| && r.graph[|g|] == Value(0.0, 0.0, Leaf)
    ensures forall i :: 0 <= i < inputNum ==> r.item.weights[i] == |g| + 1 + i
    ensures forall i :: 0 <= i < inputNum ==>
      r.graph[r.item.weights[i]] == Value(InitialWeight(rand(drawn + i)), 0.0, Leaf)
  {
    var bias := NewValue(g, 0.0);
    var h := bias.graph;
    var weights: seq<nat> := [];
    var i := 0;
    while i < inputNum
      invariant 0 <= i <= inputNum && |weights| == i
      invariant Extends(g, h) && |h| == |g| + 1 + i && h[|g|] == Value(0.0, 0.0, Leaf)
      invariant WellFormed(g) ==> WellFormed(h)
      invariant forall j :: 0 <= j < i ==> weights[j] == |g| + 1 + j
      invariant forall j :: 0 <= j < i ==> h[weights[j]] == Value(InitialWeight(rand(drawn + j)), 0.0, Leaf)
    {
      var w := NewValue(h, InitialWeight(rand(drawn + i)));
      assert w.graph == h + [Value(InitialWeight(rand(drawn + i)), 0.0, Leaf)] && w.id == |h|;
      h := w.graph;
      weights := weights + [w.id];
      i := i + 1;
    }
    r := Built(h, Neuron(weights, bias.id, nonlin), drawn + inputNum);
  }

  /** `NewLayer`: `neuronsNum` neurons of fan-in `inputNum`, in order. */
  method NewLayer(g: Graph, inputNum: nat, neuronsNum: nat, nonlin: bool, rand: nat -> real, drawn: nat)
    returns (r: Built<Layer>)
    ensures Extends(g, r.graph) && (WellFormed(g) ==> WellFormed(r.graph))
    ensures LayerIn(r.graph, r.item) && |r.item.neurons| == neuronsNum
    ensures forall i :: 0 <= i < neuronsNum ==>
      |r.item.neurons[i].weights| == inputNum && r.item.neurons[i].nonlin == nonlin
  {
    var h := g;
    var d := drawn;
    var neurons: seq<Neuron> := [];
    var i := 0;
    while i < neuronsNum
      invariant 0 <= i <= neuronsNum && |neurons| == i
      invariant Extends(g, h) && (WellFormed(g) ==> WellFormed(h))
      invariant LayerIn(h, Layer(neurons))
      invariant forall j :: 0 <= j < i ==> |neurons[j].weights| == inputNum && neurons[j].nonlin == nonlin
    {
      var n := NewNeuron(h, inputNum, nonlin, rand, d);
      h, d := n.graph, n.drawn;
      neurons := neurons + [n.item];
      i := i + 1;
    }
    r := Built(h, Layer(neurons), d);
  }

  /** The fan-in of layer `l` for inputs of width `inputNum` and the given
      layer widths. */
  function Fanin(inputNum: nat, arch: seq<nat>, l: nat): nat
    requires l < |arch|
  {
    if l == 0 then inputNum else arch[l - 1]
  }

  /** `m` has the layer widths `arch`, each layer's neurons having the
      previous layer's width (or `inputNum`) as fan-in. */
  ghost predicate Shaped(m: Model, inputNum: nat, arch: seq<nat>)
  {
    && |m.layers| == |arch|
    && (forall l :: 0 <= l < |arch| ==> |m.layers[l].neurons| == arch[l])
    && forall l, i :: 0 <= l < |arch| && 0 <= i < |m.layers[l].neurons| ==>
      |m.layers[l].neurons[i].weights| == Fanin(inputNum, arch, l)
  }

  /** `NewModel`: one layer per entry of `arch`, every layer but the last
      with `nonlin` set. */
  method NewModel(g: Graph, inputNum: nat, arch: seq<nat>, rand: nat -> real, drawn: nat)
    returns (r: Built<Model>)
    ensures Extends(g, r.graph) && (WellFormed(g) ==> WellFormed(r.graph))
    ensures ModelIn(r.graph, r.item) && Shaped(r.item, inputNum, arch)
    ensures forall l, i :: 0 <= l < |arch| && 0 <= i < |r.item.layers[l].neurons| ==>
      r.item.layers[l].neurons[i].nonlin == (l != |arch| - 1)
  {
    var h := g;
    var d := drawn;
    var layers: seq<Layer> := [];
    var l := 0;
    while l < |arch|
      invariant 0 <= l <= |arch| && |layers| == l
      invariant Extends(g, h) && (WellFormed(g) ==> WellFormed(h))
      invariant ModelIn(h, Model(layers))
      invariant forall j :: 0 <= j < l ==> |layers[j].neurons| == arch[j]
      invariant forall j, i :: 0 <= j < l && 0 <= i < |layers[j].neurons| ==>
        |layers[j].neurons[i].weights| == Fanin(inputNum, arch, j) && layers[j].neurons[i].nonlin == (j != |arch| - 1)
    {
      var layer := NewLayer(h, Fanin(inputNum, arch, l), arch[l], l != |arch| - 1, rand, d);
      ModelInExtends(h, layer.graph, Model(layers));
      h, d := layer.graph, layer.drawn;
      layers := layers + [layer.item];
      l := l + 1;
    }
    r := Built(h, Model(layers), d);
  }

  // ---------------------------------------------------------------------
  // Parameters
  // ---------------------------------------------------------------------

  /** `Neuron.params`: the weights in order, then the bias. */
  function NeuronParams(n: Neuron): (r: seq<nat>)
    ensures |r| == |n.weights| + 1 && r[|n.weights|] == n.bias
    ensures r[..|n.weights|] == n.weights
    ensures forall x :: x in r <==> x in n.weights || x == n.bias
  {
    n.weights + [n.bias]
  }

  /** `Layer.params`: the neurons' parameters, neuron after neuron. */
  function LayerParams(neurons: seq<Neuron>): seq<nat>
  {
    if neurons == [] then []
    else LayerParams(neurons[..|neurons| - 1]) + NeuronParams(neurons[|neurons| - 1])
  }

  /** `Model.Params`: the layers' parameters, layer after layer. */
  function ModelParams(layers: seq<Layer>): seq<nat>
  {
    if layers == [] then []
    else ModelParams(layers[..|layers| - 1]) + LayerParams(layers[|layers| - 1].neurons)
  }

  /** `x` is a parameter of one of the neurons. */
  ghost predicate InSomeNeuron(neurons: seq<Neuron>, x: nat)
  {
    exists i :: 0 <= i < |neurons| && x in NeuronParams(neurons[i])
  }

  /** A neuron holding `x` is among the earlier ones or is the last. */
  lemma InSomeNeuronSplit(neurons: seq<Neuron>, x: nat)
    requires neurons != []
    ensures InSomeNeuron(neurons, x) <==>
      InSomeNeuron(neurons[..|neurons| - 1], x) || x in NeuronParams(neurons[|neurons| - 1])
  {
    var init := neurons[..|neurons| - 1];
    if InSomeNeuron(neurons, x) {
      var i :| 0 <= i < |neurons| && x in NeuronParams(neurons[i]);
      if i < |init| {
        assert init[i] == neurons[i];
      }
    }
    if InSomeNeuron(init, x) {
      var i :| 0 <= i < |init| && x in NeuronParams(init[i]);
      assert init[i] == neurons[i];
    }
  }

  /** A layer lists exactly its neurons' parameters. */
  lemma {:induction false} LayerParamsMembers(neurons: seq<Neuron>, x: nat)
    ensures x in LayerParams(neurons) <==> InSomeNeuron(neurons, x)
    decreases |neurons|
  {
    if neurons != [] {
      var init := neurons[..|neurons| - 1];
      LayerParamsMembers(init, x);
      InSomeNeuronSplit(neurons, x);
      assert LayerParams(neurons) == LayerParams(init) + NeuronParams(neurons[|neurons| - 1]);
    }
  }

  /** `x` is a parameter of one of the layers. */
  ghost predicate InSomeLayer(layers: seq<Layer>, x: nat)
  {
    exists l :: 0 <= l < |layers| && x in LayerParams(layers[l].neurons)
  }

  /** A layer holding `x` is among the earlier ones or is the last. */
  lemma InSomeLayerSplit(layers: seq<Layer>, x: nat)
    requires layers != []
    ensures InSomeLayer(layers, x) <==>
      InSomeLayer(layers[..|layers| - 1], x) || x in LayerParams(layers[|layers| - 1].neurons)
  {
    var init := layers[..|layers| - 1];
    if InSomeLayer(layers, x) {
      var l :| 0 <= l < |layers| && x in LayerParams(layers[l].neurons);
      if l < |init| {
        assert init[l] == layers[l];
      }
    }
    if InSomeLayer(init, x) {
      var l :| 0 <= l < |init| && x in LayerParams(init[l].neurons);
      assert init[l] == layers[l];
    }
  }

  /** A model lists exactly its layers' parameters. */
  lemma {:induction false} ModelParamsMembers(layers: seq<Layer>, x: nat)
    ensures x in ModelParams(layers) <==> InSomeLayer(layers, x)
    decreases |layers|
  {
    if layers != [] {
      var init := layers[..|layers| - 1];
      ModelParamsMembers(init, x);
      InSomeLayerSplit(layers, x);
      assert ModelParams(layers) == ModelParams(init) + LayerParams(layers[|layers| - 1].neurons);
    }
  }

  /** A layer of neurons of fan-in `w` has `w + 1` parameters per neuron. */
  lemma {:induction false} LayerParamCount(neurons: seq<Neuron>, w: nat)
    requires forall i :: 0 <= i < |neurons| ==> |neurons[i].weights| == w
    ensures |LayerParams(neurons)| == |neurons| * (w + 1)
    decreases |neurons|
  {
    if neurons != [] {
      var init := neurons[..|neurons| - 1];
      assert forall i :: 0 <= i < |init| ==> init[i] == neurons[i];
      LayerParamCount(init, w);
      assert |LayerParams(neurons)| == |LayerParams(init)| + (w + 1);
      MulSucc(|init|, w + 1);
    }
  }

  lemma MulSucc(n: nat, c: nat)
    ensures (n + 1) * c == n * c + c
  {
  }

  /** The number of parameters of a network of layer widths `arch` on inputs
      of width `inputNum`: each layer contributes `width * (fan-in + 1)`. */
  function ArchParams(inputNum: nat, arch: seq<nat>): nat
  {
    if arch == [] then 0
    else ArchParams(inputNum, arch[..|arch| - 1]) + arch[|arch| - 1] * (Fanin(inputNum, arch, |arch| - 1) + 1)
  }

  /** Dropping the last layer of a shaped model leaves a model shaped by
      the remaining widths. */
  lemma ShapedPrefix(m: Model, inputNum: nat, arch: seq<nat>)
    requires Shaped(m, inputNum, arch) && arch != []
    ensures Shaped(Model(m.layers[..|arch| - 1]), inputNum, arch[..|arch| - 1])
  {
    var n := |arch|;
    forall l | 0 <= l < n - 1
      ensures Fanin(inputNum, arch[..n - 1], l) == Fanin(inputNum, arch, l)
    {
    }
  }

  /** A model of shape `arch` has `ArchParams(inputNum, arch)` parameters. */
  lemma {:induction false} ModelParamCount(m: Model, inputNum: nat, arch: seq<nat>)
    requires Shaped(m, inputNum, arch)
    ensures |ModelParams(m.layers)| == ArchParams(inputNum, arch)
    decreases |arch|
  {
    if arch != [] {
      var n := |arch|;
      var init, last := m.layers[..n - 1], m.layers[n - 1];
      var w := Fanin(inputNum, arch, n - 1);
      ShapedPrefix(m, inputNum, arch);
      ModelParamCount(Model(init), inputNum, arch[..n - 1]);
      assert forall i :: 0 <= i < |last.neurons| ==> |last.neurons[i].weights| == w;
      LayerParamCount(last.neurons, w);
      assert |last.neurons| == arch[n - 1];
      assert ModelParams(m.layers) == ModelParams(init) + LayerParams(last.neurons);
      assert ArchParams(inputNum, arch) == ArchParams(inputNum, arch[..n - 1]) + arch[n - 1] * (w + 1);
    }
  }

  /** The parameters of a layer are nodes of any graph holding the layer. */
  lemma {:induction false} LayerParamsIn(g: Graph, neurons: seq<Neuron>)
    requires LayerIn(g, Layer(neurons))
    ensures NodesIn(g, LayerParams(neurons))
    decreases |neurons|
  {
    if neurons != [] {
      var init := neurons[..|neurons| - 1];
      assert LayerIn(g, Layer(init)) by {
        assert forall i :: 0 <= i < |init| ==> init[i] == neurons[i];
      }
      LayerParamsIn(g, init);
      assert NeuronIn(g, neurons[|neurons| - 1]);
    }
  }

  lemma {:induction false} ModelParamsIn(g: Graph, layers: seq<Layer>)
    requires ModelIn(g, Model(layers))
    ensures NodesIn(g, ModelParams(layers))
    decreases |layers|
  {
    if layers != [] {
      var init := layers[..|layers| - 1];
      assert ModelIn(g, Model(init)) by {
        assert forall i :: 0 <= i < |init| ==> init[i] == layers[i];
      }
      ModelParamsIn(g, init);
      LayerParamsIn(g, layers[|layers| - 1].neurons);
    }
  }

  // ---------------------------------------------------------------------
  // Gradient reset
  // ---------------------------------------------------------------------

  /** `SetGrad(0)` on each node of `ps` in turn: exactly those gradients
      become 0, and nothing else changes. */
  method ZeroGrads(g: Graph, ps: seq<nat>) returns (r: Graph)
    requires NodesIn(g, ps)
    ensures SameShape(g, r) && (WellFormed(g) ==> WellFormed(r))
    ensures forall j :: 0 <= j < |g| ==> r[j].grad == if j in ps then 0.0 else g[j].grad
  {
    r := g;
    var i := 0;
    while i < |ps|
      invariant 0 <= i <= |ps|
      invariant SameShape(g, r) && (WellFormed(g) ==> WellFormed(r))
      invariant forall j :: 0 <= j < |g| ==> r[j].grad == if j in ps[..i] then 0.0 else g[j].grad
    {
      assert ps[..i + 1] == ps[..i] + [ps[i]];
      r := SetGrad(r, ps[i], 0.0);
      i := i + 1;
    }
    assert ps[..|ps|] == ps;
  }

  /** `Neuron.zeroGrad`. */
  method NeuronZeroGrad(g: Graph, n: Neuron) returns (r: Graph)
    requires NeuronIn(g, n)
    ensures SameShape(g, r)
    ensures forall j :: 0 <= j < |g| ==> r[j].grad == if j in n.weights || j == n.bias then 0.0 else g[j].grad
  {
    r := ZeroGrads(g, NeuronParams(n));
  }

  /** `Layer.zeroGrad`. */
  method LayerZeroGrad(g: Graph, l: Layer) returns (r: Graph)
    requires LayerIn(g, l)
    ensures SameShape(g, r)
    ensures forall j :: 0 <= j < |g| ==> r[j].grad == if j in LayerParams(l.neurons) then 0.0 else g[j].grad
  {
    LayerParamsIn(g, l.neurons);
    r := ZeroGrads(g, LayerParams(l.neurons));
  }

  /** `Model.ZeroGrad`. */
  method ModelZeroGrad(g: Graph, m: Model) returns (r: Graph)
    requires ModelIn(g, m)
    ensures SameShape(g, r)
    ensures forall j :: 0 <= j < |g| ==> r[j].grad == if j in ModelParams(m.layers) then 0.0 else g[j].grad
  {
    ModelParamsIn(g, m.layers);
    r := ZeroGrads(g, ModelParams(m.layers));
  }

  // ---------------------------------------------------------------------
  // Forward pass
  // ---------------------------------------------------------------------

  /** The products `w_i * x_i` of the weights with the matching inputs. */
  function Products(g: Graph, ws: seq<nat>, xs: seq<nat>): (r: seq<real>)
    requires |ws| <= |xs| && NodesIn(g, ws) && NodesIn(g, xs)
    ensures |r| == |ws|
  {
    seq(|ws|, i requires 0 <= i < |ws| => g[ws[i]].data * g[xs[i]].data)
  }

  lemma ProductsExtend(g: Graph, h: Graph, ws: seq<nat>, xs: seq<nat>)
    requires |ws| <= |xs| && NodesIn(g, ws) && NodesIn(g, xs) && Extends(g, h)
    ensures Products(h, ws, xs) == Products(g, ws, xs)
  {
    assert forall i :: 0 <= i < |ws| ==> Products(h, ws, xs)[i] == Products(g, ws, xs)[i];
  }

  /** Node `id` adds the node two below it to the product `w * x` just
      below it: the last step of a dot product. */
  predicate EndsWithTerm(h: Graph, id: nat, w: nat, x: nat)
  {
    2 <= id < |h| && h[id].op == Addition(id - 2, id - 1) && h[id - 1].op == Multiplication(w, x)
  }

  /** The dot product of `Neuron.feedForward`: a leaf holding 0, then per
      weight a product node and a running-sum node, folded left to right. */
  method Dot(g: Graph, ws: seq<nat>, xs: seq<nat>) returns (dot: Step)
    requires |ws| <= |xs| && NodesIn(g, ws) && NodesIn(g, xs)
    ensures Extends(g, dot.graph) && |dot.graph| == |g| + 1 + 2 * |ws| && dot.id == |dot.graph| - 1
    ensures dot.graph[dot.id].data == Sum(Products(g, ws, xs))
    ensures |ws| == 0 ==> dot.graph[dot.id] == Value(0.0, 0.0, Leaf)
    ensures |ws| > 0 ==> EndsWithTerm(dot.graph, dot.id, ws[|ws| - 1], xs[|ws| - 1])
    ensures WellFormed(g) ==> WellFormed(dot.graph)
  {
    var ps := Products(g, ws, xs);
    dot := NewValue(g, 0.0);
    var i := 0;
    while i < |ws|
      invariant 0 <= i <= |ws|
      invariant Extends(g, dot.graph) && |dot.graph| == |g| + 1 + 2 * i && dot.id == |dot.graph| - 1
      invariant WellFormed(g) ==> WellFormed(dot.graph)
      invariant dot.graph[dot.id].data == Sum(ps[..i])
      invariant i == 0 ==> dot.graph[dot.id] == Value(0.0, 0.0, Leaf)
      invariant i > 0 ==> EndsWithTerm(dot.graph, dot.id, ws[i - 1], xs[i - 1])
    {
      var m := Mul(dot.graph, ws[i], xs[i]);
      assert m.graph[m.id].data == ps[i];
      assert ps[..i + 1][..i] == ps[..i];
      dot := Add(m.graph, dot.id, m.id);
      assert EndsWithTerm(dot.graph, dot.id, ws[i], xs[i]);
      i := i + 1;
    }
    assert ps[..|ws|] == ps;
  }

  /** `Neuron.feedForward`: `0 + w_1*x_1 + ... + w_n*x_n + bias`, folded
      left to right, two nodes per weight. Fewer inputs than weights is an
      index out of range: `None`. */
  method NeuronForward(g: Graph, n: Neuron, inputs: seq<nat>) returns (r: Option<Step>)
    requires NeuronIn(g, n) && NodesIn(g, inputs)
    ensures r.Some? <==> |n.weights| <= |inputs|
    ensures r.Some? ==> Extends(g, r.value.graph) && r.value.id == |r.value.graph| - 1
    ensures r.Some? ==> |r.value.graph| == |g| + 2 * |n.weights| + 2
    ensures r.Some? ==> r.value.graph[r.value.id].data == Sum(Products(g, n.weights, inputs)) + g[n.bias].data
    ensures r.Some? ==> r.value.graph[r.value.id].op == Addition(r.value.id - 1, n.bias)
    ensures r.Some? && WellFormed(g) ==> WellFormed(r.value.graph)
  {
    if |n.weights| > |inputs| {
      return None;
    }
    var dot := Dot(g, n.weights, inputs);
    assert dot.graph[n.bias] == g[n.bias];
    r := Some(Add(dot.graph, dot.id, n.bias));
  }

  /** The weights' values in `g`, each times the matching input value. */
  function Weighted(g: Graph, ws: seq<nat>, xs: seq<real>): (r: seq<real>)
    requires NodesIn(g, ws) && |ws| <= |xs|
    ensures |r| == |ws|
  {
    seq(|ws|, i requires 0 <= i < |ws| => g[ws[i]].data * xs[i])
  }

  /** What a neuron makes of the input values `xs`: the weighted sum plus
      the bias, with the weights' and bias's values taken from `g`. */
  function NeuronValue(g: Graph, n: Neuron, xs: seq<real>): real
    requires NeuronIn(g, n) && |n.weights| <= |xs|
  {
    Sum(Weighted(g, n.weights, xs)) + g[n.bias].data
  }

  /** What a layer makes of the input values `xs`: one value per neuron. */
  function LayerValues(g: Graph, l: Layer, xs: seq<real>): (r: seq<real>)
    requires LayerIn(g, l) && Accepts(l, |xs|)
    ensures |r| == |l.neurons|
  {
    seq(|l.neurons|, i requires 0 <= i < |l.neurons| => NeuronValue(g, l.neurons[i], xs))
  }

  /** The values the first `l` layers of `m` make of the input values `xs`,
      each layer applied to the values of the one before. */
  function Outputs(g: Graph, m: Model, xs: seq<real>, l: nat): (r: seq<real>)
    requires ModelIn(g, m) && l <= |m.layers| && FitsUpTo(m, l) && |xs| == 2
    ensures |r| == Width(m, l)
    decreases l
  {
    if l == 0 then xs else LayerValues(g, m.layers[l - 1], Outputs(g, m, xs, l - 1))
  }

  /** The value a neuron's output node gets from the input nodes: the
      neuron's weighted sum of the input nodes' values plus its bias. */
  function Activation(g: Graph, n: Neuron, inputs: seq<nat>): (r: real)
    requires NeuronIn(g, n) && NodesIn(g, inputs) && |n.weights| <= |inputs|
    ensures r == NeuronValue(g, n, Values(g, inputs))
  {
    assert forall i :: 0 <= i < |n.weights| ==>
      Products(g, n.weights, inputs)[i] == Weighted(g, n.weights, Values(g, inputs))[i];
    assert Products(g, n.weights, inputs) == Weighted(g, n.weights, Values(g, inputs));
    Sum(Products(g, n.weights, inputs)) + g[n.bias].data
  }

  /** A neuron's value reads only its own parameters, which appending nodes
      keeps. */
  lemma NeuronValueExtends(g: Graph, h: Graph, n: Neuron, xs: seq<real>)
    requires NeuronIn(g, n) && Extends(g, h) && |n.weights| <= |xs|
    ensures NeuronValue(h, n, xs) == NeuronValue(g, n, xs)
  {
    assert forall i :: 0 <= i < |n.weights| ==> Weighted(h, n.weights, xs)[i] == Weighted(g, n.weights, xs)[i];
    assert Weighted(h, n.weights, xs) == Weighted(g, n.weights, xs);
    assert h[n.bias] == g[n.bias];
  }

  /** Every neuron of `l` has at most `width` weights. */
  predicate Accepts(l: Layer, width: nat)
  {
    forall i :: 0 <= i < |l.neurons| ==> |l.neurons[i].weights| <= width
  }

  /** `Layer.feedForward`: one output node per neuron, in neuron order, each
      holding the neuron's activation on the layer's inputs. */
  method LayerForward(g: Graph, l: Layer, inputs: seq<nat>) returns (r: Option<(Graph, seq<nat>)>)
    requires LayerIn(g, l) && NodesIn(g, inputs)
    ensures r.Some? <==> Accepts(l, |inputs|)
    ensures r.Some? ==> Extends(g, r.value.0) && |r.value.1| == |l.neurons| && NodesIn(r.value.0, r.value.1)
    ensures r.Some? ==> forall i :: 0 <= i < |l.neurons| ==>
      |l.neurons[i].weights| <= |inputs| && r.value.0[r.value.1[i]].data == Activation(g, l.neurons[i], inputs)
    ensures r.Some? && WellFormed(g) ==> WellFormed(r.value.0)
  {
    var h := g;
    var outs: seq<nat> := [];
    var i := 0;
    while i < |l.neurons|
      invariant 0 <= i <= |l.neurons| && |outs| == i
      invariant Extends(g, h) && NodesIn(h, outs) && (WellFormed(g) ==> WellFormed(h))
      invariant forall j :: 0 <= j < i ==>
        |l.neurons[j].weights| <= |inputs| && h[outs[j]].data == Activation(g, l.neurons[j], inputs)
    {
      var n := l.neurons[i];
      var s := NeuronForward(h, n, inputs);
      if s.None? {
        return None;
      }
      ProductsExtend(g, h, n.weights, inputs);
      h := s.value.graph;
      outs := outs + [s.value.id];
      i := i + 1;
    }
    r := Some((h, outs));
  }

  /** The number of inputs layer `l` receives: 2 for the first layer, the
      previous layer's width after that. */
  function Width(m: Model, l: nat): nat
    requires l <= |m.layers|
  {
    if l == 0 then 2 else |m.layers[l - 1].neurons|
  }

  /** Every layer accepts the outputs of the one before it. */
  predicate Fits(m: Model)
  {
    forall l :: 0 <= l < |m.layers| ==> Accepts(m.layers[l], Width(m, l))
  }

  /** The first `l` layers accept their inputs. */
  predicate FitsUpTo(m: Model, l: nat)
    requires l <= |m.layers|
  {
    forall j :: 0 <= j < l ==> Accepts(m.layers[j], Width(m, j))
  }

  lemma FitsUpToStep(m: Model, l: nat)
    requires l < |m.layers| && FitsUpTo(m, l) && Accepts(m.layers[l], Width(m, l))
    ensures FitsUpTo(m, l + 1)
  {
  }

  /** One layer of the forward pass: when the input nodes hold the values
      of the first `l` layers, the layer's output nodes hold those of the
      first `l + 1`. */
  lemma ForwardStep(g: Graph, h: Graph, m: Model, l: nat, inps: seq<nat>, h2: Graph, outs: seq<nat>, xs: seq<real>)
    requires ModelIn(g, m) && ModelIn(h, m) && Extends(g, h) && l < |m.layers| && FitsUpTo(m, l + 1) && |xs| == 2
    requires NodesIn(h, inps) && Values(h, inps) == Outputs(g, m, xs, l)
    requires NodesIn(h2, outs) && |outs| == |m.layers[l].neurons|
    requires forall i :: 0 <= i < |outs| ==>
      |m.layers[l].neurons[i].weights| <= |inps| && h2[outs[i]].data == Activation(h, m.layers[l].neurons[i], inps)
    ensures Values(h2, outs) == Outputs(g, m, xs, l + 1)
  {
    var layer := m.layers[l];
    var before := Outputs(g, m, xs, l);
    assert LayerIn(g, layer);
    forall i | 0 <= i < |outs|
      ensures Values(h2, outs)[i] == LayerValues(g, layer, before)[i]
    {
      NeuronValueExtends(g, h, layer.neurons[i], before);
    }
  }

  /** A model built for 2 inputs fits them. */
  lemma ShapedFits(m: Model, arch: seq<nat>)
    requires Shaped(m, 2, arch)
    ensures Fits(m)
  {
    forall l | 0 <= l < |m.layers|
      ensures Accepts(m.layers[l], Width(m, l))
    {
      assert Width(m, l) == Fanin(2, arch, l);
    }
  }

  /** `Model.FeedForward`: the two inputs become fresh leaves, then each
      layer's outputs feed the next. The outputs are as many as the last
      layer's neurons (the two input leaves for a model without layers). A
      layer with a neuron of too many weights panics: `None`. */
  method ModelForward(g: Graph, m: Model, input: Point) returns (r: Option<(Graph, seq<nat>)>)
    requires ModelIn(g, m)
    ensures r.Some? <==> Fits(m)
    ensures r.Some? ==> Extends(g, r.value.0) && NodesIn(r.value.0, r.value.1)
    ensures r.Some? ==> |r.value.1| == Width(m, |m.layers|)
    ensures r.Some? ==>
      |r.value.0| >= |g| + 2 && r.value.0[|g|] == Value(input.0, 0.0, Leaf) && r.value.0[|g| + 1] == Value(input.1, 0.0, Leaf)
    ensures r.Some? ==>
      Fits(m) && NodesIn(r.value.0, r.value.1) && Values(r.value.0, r.value.1) == Outputs(g, m, [input.0, input.1], |m.layers|)
    ensures r.Some? && WellFormed(g) ==> WellFormed(r.value.0)
  {
    var xs := [input.0, input.1];
    var x0 := NewValue(g, input.0);
    var x1 := NewValue(x0.graph, input.1);
    var h := x1.graph;
    var inps: seq<nat> := [x0.id, x1.id];
    var l := 0;
    while l < |m.layers|
      invariant 0 <= l <= |m.layers|
      invariant Extends(x1.graph, h) && NodesIn(h, inps) && |inps| == Width(m, l)
      invariant WellFormed(g) ==> WellFormed(h)
      invariant FitsUpTo(m, l)
      invariant Values(h, inps) == Outputs(g, m, xs, l)
    {
      ModelInExtends(g, h, m);
      var out := LayerForward(h, m.layers[l], inps);
      if out.None? {
        return None;
      }
      FitsUpToStep(m, l);
      ForwardStep(g, h, m, l, inps, out.value.0, out.value.1, xs);
      h, inps := out.value.0, out.value.1;
      l := l + 1;
    }
    r := Some((h, inps));
  }
}

# gograd in Dafny

A model of the core of gograd, a small scalar reverse-mode automatic
differentiation engine in Go, with a fully connected network built on it
and a k-fold cross-validation search for the L2 regularisation strength.

- `engine.dfy` (module `Engine`) holds the computation graph. Every `*Value`
  of the Go code becomes an index into an arena `Graph = seq<Value>`, and
  each operation appends one node whose operands are older indices. The
  operations are `Add`, `Mul`, `Pow`, `Relu`, `Neg`, `Sub` and `Div`. The
  per-node backward closures become one rule per operation tag, and
  `Update`/`SetGrad` are the parameter updates.
- `topo.dfy` (module `Topo`) holds reachability, the depth-first
  `topologicalSort` and `reverse`.
- `backprop.dfy` (module `Backprop`) holds `BackwardPass`. Its contract is
  the chain rule: after the pass, every node reachable from the root has
  gained the sum over its reachable parents of the parent's local
  derivative times the parent's final gradient. It also holds two worked
  instances: a square and a subtraction.
- `utils.go`'s helpers live in `utils.dfy` (module `Utils`): grouping into
  folds, popping a holdout fold, the average, the `Alpha` schedule, and the
  `MSE` and `L2` graph builders with the two mapping helpers.
- `nn.dfy` (module `Network`) holds neurons, layers and models: their
  construction from a stream of random draws, their parameter lists,
  gradient reset and the forward pass.
- `xval.dfy` (module `CrossValidation`) holds the floating-point candidate
  range, holdout accuracy, the checks of the mini-training, the per-score
  buckets and the selection of the best candidate. Each fold's score is
  stated as the accuracy, on the held-out fold, of the predictor trained on
  the other folds, and the search succeeds exactly when every fold of every
  candidate can be scored.
- `optional.dfy` holds the `Option` type.

Floats are modelled as mathematical reals. A Go panic becomes `None`. The backward rule of the rectifier as written never passes a gradient on (see Findings); `Engine.Backward` and everything above it use the intended rule. `popLabel` may return the wrong fold's labels, depending on an evaluation order Go leaves open (see Findings); the folds use the reading that returns the held-out fold's own labels. A hyperparameter range whose step is not positive never runs out, so the search over it never ends (see Findings); the search is modelled for ranges that do run out.

## Model

| member | source | states |
|---|---|---|
| Engine.NewSet | grad/engine.go:124-135 | the children set holds exactly the non-nil arguments, has at most two members, one when both are the same node, and none when both are nil |
| Engine.IntPower | grad/engine.go:239-241 | a nonzero base has a nonzero power; a zero base gives 1 for exponent 0 and 0 otherwise |
| Engine.IntPowerSucc | grad/engine.go:239-241 | for a nonzero base, raising any integer exponent by one multiplies the power by the base, as `math.Pow` does |
| Engine.IntPowerInverse | grad/engine.go:239-241 | for a nonzero base, the powers of opposite exponents multiply to 1 |
| Engine.IntPowerSmall | grad/engine.go:239-241 | the power the engine computes agrees with the familiar values for exponents 0, 1, 2 and with 1/x for exponent -1 |
| Engine.OperandIsChild | grad/engine.go:176-283 | a node's children set is exactly the set of operands its backward rule writes to |
| Engine.ChildrenBelow | grad/engine.go:176-283 | every child of a node was created before the node, so the graph is acyclic |
| Engine.NewValue | grad/engine.go:148-158 | a fresh leaf with the given value, zero gradient and no children is appended; older nodes are untouched |
| Engine.Add | grad/engine.go:176-192 | appends a node holding the sum of the operands' values, with zero gradient and children exactly the two operands |
| Engine.Mul | grad/engine.go:194-210 | appends a node holding the product, children the two operands, a single child when a node is multiplied by itself |
| Engine.Pow | grad/engine.go:239-254 | appends a node holding the operand raised to the exponent, with the operand as its only child |
| Engine.Relu | grad/engine.go:256-271 | the rectified value is non-negative, at least the operand, equal to the operand or 0, and positive exactly when the operand is |
| Engine.Neg | grad/engine.go:235-237 | negation is a multiplication by a fresh -1 leaf, and the result holds the operand's negated value |
| Engine.Sub | grad/engine.go:212-214 | subtraction adds the negation of the subtrahend; the result holds the difference of the two values |
| Engine.Reciprocal | grad/engine.go:216-233 | multiplying by the -1 power of a nonzero divisor is division by it |
| Engine.DivisorNode | grad/engine.go:221-230 | a float or int divisor becomes a fresh leaf holding its value, a node divisor is used as is |
| Engine.Div | grad/engine.go:220-233 | division appends the divisor leaf for a float or int divisor, then a node raising the divisor to the power -1, then the product of the dividend with that node; for a nonzero divisor the result is the quotient |
| Engine.EvalExtends | grad/engine.go:138-145 | a node's value depends only on its operands, so appending nodes never changes it |
| Engine.PushConsistent | grad/engine.go:176-254 | every operation keeps each non-leaf node's value equal to its operation applied to its operands' values |
| Engine.NewValueConsistent | grad/engine.go:148-158 | adding a leaf keeps every node's value consistent with its operation |
| Engine.SubConsistent | grad/engine.go:212-214 | the composite subtraction keeps every node's value consistent with its operation |
| Engine.DivConsistent | grad/engine.go:220-233 | the composite division keeps every node's value consistent with its operation |
| Engine.Partial | grad/engine.go:186-280 | a node's local derivative is nonzero only with respect to one of its operands |
| Engine.AddGrad | grad/engine.go:187-188 | the `+=` of a backward closure: one gradient grows by the given amount and nothing else changes |
| Engine.BackwardAdd | grad/engine.go:186-189 | each operand of a sum gains 1 times the node's gradient; an operand used twice gains twice |
| Engine.BackwardMul | grad/engine.go:204-207 | each operand of a product gains the other operand's value times the node's gradient, both shares when squared |
| Engine.BackwardPow | grad/engine.go:249-251 | the operand gains exponent times the operand to the exponent minus 1, times the node's gradient |
| Engine.BackwardRelu | grad/engine.go:273-280 | the operand gains the node's gradient unless it is negative, when it gains nothing: the intended rectifier derivative |
| Engine.BackwardReluAsWritten | grad/engine.go:256-283 | as written, the rectifier's rule reads the gradient of a local copy that stays 0, so no gradient ever changes |
| Engine.ReluBlocksGradient | grad/engine.go:256-283 | on a positive leaf under a rectifier with gradient 1, the rule as written leaves the leaf at 0 while the intended rule gives 1 |
| Engine.Backward | grad/engine.go:186-280 | running a node's backward closure passes each operand its local derivative times the node's gradient and changes no value or structure |
| Engine.Update | grad/engine.go:164-166 | a parameter moves by minus the learning rate times its gradient; every other node is unchanged |
| Engine.UpdateDescends | grad/engine.go:164-166 | with a positive learning rate and a nonzero gradient the step moves against the gradient |
| Engine.SetGrad | grad/engine.go:172-174 | exactly one gradient is replaced; every other node is unchanged |
| Topo.ReachBelow | grad/engine.go:298-306 | every node reachable from a node was created no later than it |
| Topo.ReachUnfold | grad/engine.go:298-306 | the reachable set is the node plus what its children reach |
| Topo.ReachClosed | grad/engine.go:298-306 | the reachable set is closed under taking children |
| Topo.SortedCoversReach | grad/engine.go:298-306 | an order with every node after its children contains everything reachable from any of its members |
| Topo.SortedAppend | grad/engine.go:304 | appending a node whose children are already listed keeps children before parents |
| Topo.TopologicalSort | grad/engine.go:298-306 | the depth-first sort appends exactly the newly reachable unvisited nodes, children before parents, and marks all reachable nodes visited |
| Topo.TopologicalOrder | grad/engine.go:286-292 | starting from empty state the order lists exactly the nodes reachable from the root, each after its children |
| Topo.Reverse | grad/engine.go:308-316 | the result holds the same elements in the opposite order |
| Topo.ReversedParentsFirst | grad/engine.go:293 | the reversed order lists each reachable node once, every node before all its children |
| Backprop.CoefsTabulate | grad/engine.go:186-280 | the table of local derivatives agrees with every backward rule |
| Backprop.TabulatesUnique | grad/engine.go:186-280 | the table of local derivatives is determined by the graph |
| Backprop.IncomingStep | grad/engine.go:293-295 | the chain-rule sum grows by exactly one parent's share when that parent's rule has run |
| Backprop.IncomingOnly | grad/engine.go:293-295 | a node with a single reachable parent receives exactly that parent's derivative times its gradient |
| Backprop.RuleShares | grad/engine.go:293-295 | running one node's rule adds to each node exactly its local derivative times the running node's gradient |
| Backprop.AccumulateStep | grad/engine.go:293-295 | after each rule in parents-first order, every gradient equals its seed plus the shares of the parents already run |
| Backprop.RunRules | grad/engine.go:293-295 | running the rules in an order listing parents before children yields the chain-rule sums over the nodes run |
| Backprop.BackwardConclude | grad/engine.go:285-296 | when all reachable rules have run, the root holds 1, unreachable nodes are unchanged and each other reachable node holds the chain-rule sum |
| Backprop.BackwardPass | grad/engine.go:285-296 | the root gets gradient 1, every other reachable node gains the sum over reachable parents of derivative times parent gradient, and nothing else changes |
| Backprop.SquareGradient | grad/engine.go:204-207 | for x*x the backward pass gives x the gradient 2x on top of what it had |
| Backprop.SubGradients | grad/engine.go:212-214 | for a - b of two leaves the pass gives a +1 and b -1 |
| Utils.SumBounds | grad/utils.go:62-69 | a sum of n terms in an interval lies between n times its ends |
| Utils.AvgValue | grad/utils.go:62-69 | the average times the count is the sum; an empty slice has no average, where Go divides 0 by 0 |
| Utils.AvgWithin | grad/utils.go:62-69 | the average of values in an interval lies in that interval |
| Utils.Alpha | grad/utils.go:43-45 | for a nonzero iteration count the rate r satisfies (1 - r) * iterations == 0.9 * pass, and a zero iteration count gives no rate |
| Utils.AlphaSchedule | grad/utils.go:43-45 | the rate starts at 1, ends at 0.1 and never increases over the passes |
| Utils.Group | grad/utils.go:27-40 | k consecutive equal slices of size len/k of data and of labels; division by zero and labels too short panic; negative k gives no groups |
| Utils.SlicesCover | grad/utils.go:31-37 | the concatenated groups are exactly the prefix of length k times the group size |
| Utils.GroupDropsRemainder | grad/utils.go:27-40 | grouping drops exactly the last len mod k samples, in data and labels alike |
| Utils.Pop | grad/utils.go:47-60 | popping index i returns the element there and the rest, which puts it back in place when reinserted; an out-of-range index panics; for `popLabel` this is the reading with the element read before the append (see Findings) |
| Utils.PopMultiset | grad/utils.go:47-60 | the popped element and the rest together are the original groups |
| Utils.ShiftDown | grad/utils.go:51 | the in-place append moves every element after the index down one place and leaves the last where it was |
| Utils.PopLabelAppendFirst | grad/utils.go:58-60 | `popLabel` with the append evaluated before the index read panics on the same indices as `Pop` |
| Utils.PopLabelShifts | grad/utils.go:58-60 | with the append first, the rest is as `Pop` gives it but the popped element is the following group for every index but the last |
| Utils.PopLabelMismatch | grad/utils.go:58-60 | holding out the first of two label folds returns the second fold's labels when the append runs first |
| Utils.Mse | grad/utils.go:21-25 | builds the expected leaf, its negation, the difference and its square, whose value is the squared error |
| Utils.MseReach | grad/utils.go:21-25 | the loss reaches the prediction and the difference node, and nothing else outside what the prediction reaches |
| Utils.MseGradient | grad/utils.go:21-25 | backpropagating the squared error gives the prediction 2 times (prediction minus expected) on top of its gradient |
| Utils.SquaresNonNegative | grad/utils.go:71-86 | the sum of squared parameters is never negative |
| Utils.SquareAll | grad/utils.go:74-77 | appends one square node per parameter, in order, holding that parameter's square |
| Utils.SumAll | grad/utils.go:79-83 | the chain of additions from 0 ends in a node holding the sum of the values |
| Utils.L2 | grad/utils.go:71-86 | the penalty node is the product of the strength with the sum node just below it and holds the strength times the sum of the squared parameters |
| Utils.Map2Pred | grad/utils.go:88-101 | each input maps to the single output of its prediction, in order; a prediction of any other width panics |
| Utils.Map2Losses | grad/utils.go:103-111 | each input pairs with the expected value at its index, in order; fewer expected values than inputs panics |
| Network.InitialWeight | grad/utils.go:11-19 | a uniform draw in [0, 1) becomes a weight in [-1, 1) |
| Network.NewNeuron | grad/nn.go:20-29 | a zero bias leaf then one leaf per input drawn in order from the random stream, with the given flag |
| Network.NewLayer | grad/nn.go:65-72 | the requested number of neurons, each with the requested fan-in and flag, all nodes of the graph |
| Network.NewModel | grad/nn.go:107-122 | one layer per width, each neuron's fan-in the previous width, the flag set on every layer but the last |
| Network.NeuronParams | grad/nn.go:43-52 | the weights in their order followed by the bias, which is the last parameter; nothing else is listed |
| Network.LayerParamsMembers | grad/nn.go:84-94 | a layer lists exactly the parameters of its neurons |
| Network.ModelParamsMembers | grad/nn.go:138-148 | a model lists exactly the parameters of its layers |
| Network.LayerParamCount | grad/nn.go:84-94 | a layer of n neurons of fan-in w has n(w+1) parameters |
| Network.ModelParamCount | grad/nn.go:138-148 | a model's parameter count is fixed by the input width and the layer widths |
| Network.ModelParamsIn | grad/nn.go:138-148 | every parameter a model lists is a node of the graph |
| Network.ZeroGrads | grad/nn.go:54-58 | exactly the listed parameters get gradient 0; every other gradient and all values are kept |
| Network.NeuronZeroGrad | grad/nn.go:54-58 | exactly the neuron's weights and bias get gradient 0 |
| Network.LayerZeroGrad | grad/nn.go:96-100 | exactly the layer's parameters get gradient 0 |
| Network.ModelZeroGrad | grad/nn.go:150-154 | exactly the model's parameters get gradient 0 |
| Network.ProductsExtend | grad/nn.go:31-41 | the weight-input products read from older nodes do not change as the graph grows |
| Network.Dot | grad/nn.go:32-36 | the chain of products and additions from a 0 leaf holds the sum of the weight-input products, and for a non-empty neuron its last node adds the running sum to the last weight times its input |
| Network.NeuronForward | grad/nn.go:31-41 | the output is the dot product plus the bias node and holds the weighted sum of the inputs plus the bias; a neuron with more weights than inputs panics |
| Network.Activation | grad/nn.go:31-41 | the value of a neuron's output node is the neuron's weighted sum of the input nodes' values plus its bias |
| Network.NeuronValueExtends | grad/nn.go:31-41 | a neuron's value on given inputs reads only its own parameters, so later nodes never change it |
| Network.LayerForward | grad/nn.go:74-82 | one output per neuron, in neuron order, each holding that neuron's affine output; a neuron too wide for the inputs panics |
| Network.ForwardStep | grad/nn.go:131-133 | feeding one more layer turns the values of the first l layers into those of the first l+1 |
| Network.ShapedFits | grad/nn.go:107-136 | a model built for two inputs accepts every layer's inputs |
| Network.ModelForward | grad/nn.go:124-136 | the two inputs become the next two fresh leaves, and the output nodes hold the values of the layers applied one after the other to the inputs; the pass succeeds exactly when every layer fits its inputs, with as many outputs as the last layer has neurons |
| CrossValidation.NonPositiveStepNeverEnds | grad/xval.go:26-38 | with a step that is not positive and a start at or below the end, every call of `next` yields a value no larger than the start, so the range is never exhausted |
| CrossValidation.NewFiniteRange | grad/xval.go:17-24 | a range is built exactly when its step is positive or it starts past its end, and then it is the range `NewFloatingRange` builds and is finite |
| CrossValidation.NewFloatingRange | grad/xval.go:17-24 | a fresh range starts at its start |
| CrossValidation.Next | grad/xval.go:26-38 | yields the current value exactly when it is at most the end, then advances by exactly the step; otherwise signals exhaustion and changes nothing |
| CrossValidation.FirstNext | grad/xval.go:17-38 | the first call yields the start when start is at most end, and exhaustion otherwise |
| CrossValidation.NextSticky | grad/xval.go:31-37 | once exhausted, every later call is exhausted and the range never changes |
| CrossValidation.NextRemaining | grad/xval.go:26-38 | with a positive step each yielded value brings exhaustion one call closer |
| CrossValidation.DrainValues | grad/xval.go:26-38 | the candidates are start, start+step, and so on, each at most the end, and the next one would exceed it |
| CrossValidation.Agreements | grad/xval.go:207-212 | the count of agreeing predictions never exceeds the number of predictions |
| CrossValidation.AgreementsCount | grad/xval.go:207-212 | the count is the number of positions whose prediction is on the same side of 0 as its expectation |
| CrossValidation.AgreementsExtremes | grad/xval.go:207-212 | all signs agreeing counts every prediction; all disagreeing counts none |
| CrossValidation.Accuracy | grad/xval.go:203-216 | the share of predictions whose sign agrees with the expectation, in [0, 1]; no predictions (0/0, NaN in Go) or too few expectations (an index panic in Go) give no score |
| CrossValidation.MiniTrain | grad/xval.go:163-170 | training proceeds exactly when the architecture has a first entry to build the model from and inputs and expectations have the same length, and then yields the trained model |
| CrossValidation.FoldScore | grad/xval.go:203-215 | a fold's score, the holdout accuracy of the predictor trained on the other folds, lies in [0, 1] |
| CrossValidation.Fold | grad/xval.go:108-119 | a fold is scored exactly when the index is a fold, the folds pair up, the architecture is non-empty, the trained predictor gives one output per holdout input and the holdout is non-empty with a label per input; the score is then the trained predictor's holdout accuracy |
| CrossValidation.FoldsMatch | grad/xval.go:101-113 | each holdout split has a data fold and a label fold of the same size, and k-1 training folds of each |
| CrossValidation.Record | grad/xval.go:135-142 | the candidate is appended to its score's bucket, opening it if absent; every other bucket is unchanged |
| CrossValidation.RecordAllBuckets | grad/xval.go:135-142 | each bucket holds exactly the candidates that scored its key, in the order they were tried |
| CrossValidation.SelectBest | grad/xval.go:148-160 | the selected candidate is the first of the bucket with the highest score; no buckets panics |
| CrossValidation.BestExists | grad/xval.go:148-157 | a non-empty set of scores has a highest one |
| CrossValidation.SelectsEarliest | grad/xval.go:148-160 | the best bucket holds the earliest candidate tried at that score first |
| CrossValidation.NewXVal | grad/xval.go:52-76 | a fresh search with no scores that keeps the given architecture, range and k, over `group`'s folds of the dataset (no folds for a negative k); the grouping's panics carry through |
| CrossValidation.ScoreCandidate | grad/xval.go:94-129 | the candidate's scores exist exactly when `k` is not negative (making the channel panics otherwise) and every fold can be scored, and they are the folds' holdout accuracies in fold order, each in [0, 1] |
| CrossValidation.PartitionedKeyed | grad/xval.go:96-119 | on the folds grouping makes of at least k samples, with a non-empty architecture and models of one output, every candidate is scored |
| CrossValidation.MeanScore | grad/xval.go:131-132 | the mean of a candidate's fold accuracies lies in [0, 1] |
| CrossValidation.ScoreKey | grad/xval.go:126-136 | a candidate gets a key exactly when there are folds and every fold scores, and the key is that of the mean of its fold accuracies |
| CrossValidation.FollowsKeyed | grad/xval.go:87-146 | trials covering every candidate, each keyed, mean every candidate was scored |
| CrossValidation.RecordAllKeeps | grad/xval.go:135-142 | recording never removes a bucket and only appends to the buckets already present |
| CrossValidation.ScoreRange | grad/xval.go:87-146 | scoring succeeds exactly when every candidate of the range can be scored, and otherwise stops at the first that cannot; each trial pairs a candidate, in range order, with the key of its mean fold accuracy; the buckets are those of the trials; an empty range records nothing; earlier buckets are only extended |
| CrossValidation.SearchBestHyperpar | grad/xval.go:78-161 | the search scores exactly when every candidate can be scored, each under the key of its mean fold accuracy, and then returns the earliest candidate with the highest key; on a fresh search it returns a candidate exactly when the range is non-empty |

## Left out

- Floating point: values, gradients and scores are mathematical reals. Rounding, NaN and infinities are not modelled, and a float exponent of `Pow` is restricted to an integer.
- Engine.Div: Go's `Div(other interface{})` leaves the divisor nil for any dynamic type other than `float64`, `int` and `*Value`, and for a nil `*Value`; `o.Pow(-1)` then dereferences nil and panics (grad/engine.go:220-232). `Divisor` admits only the three handled kinds, so that panic is not modelled; the callers pass an `int` (grad/xval.go:186) or a `*Value`.
- Engine.IntPower: 0 raised to a negative power gives 0 where Go's `math.Pow` gives +Inf, so `Div` by a zero divisor yields 0 instead of an infinity or NaN.
- Pointers and identity: nodes are arena indices, and the Go `cset` keyed by pointers becomes a set of indices.
- Shared mutation: the Go code mutates `*Value`s shared by all their users; the model threads the graph through every operation and returns the new graph instead.
- Randomness: `rand.Float64` and the time-based seeding become a parameter stream `rand` with a cursor `drawn`.
- Network.NewNeuron: sizes are typed as `nat`, so negative sizes are excluded. In Go a negative `inputNum` panics in `make` (grad/utils.go:12). A negative `neuronsNum` in `NewLayer` runs no iteration and yields an empty layer (grad/nn.go:67). A negative width in `NewModel`'s `networkArch` yields an empty layer as well, and then panics only if the next layer has neurons, since the width is their `inputNum`.
- Network.ModelForward: the `nonlin` flag is stored but never applied, because the Go forward pass never reads it, so the network is affine.
- Concurrency: the k fold goroutines, the wait group and the channel run one after the other; the order in which scores leave the channel does not change their mean.
- CrossValidation.Fold: in Go all fold workers of a candidate store their model in the one shared field `xv.model` (grad/xval.go:165) and read it back for the holdout (grad/xval.go:204), so one fold's holdout can be scored with another worker's model; the model gives each fold the predictor trained without it.
- CrossValidation.SearchBestHyperpar: the training loop of `miniTrain` is a parameter `train`. It takes the training folds one after the other, and trains ten passes on each whole fold; a pass computes the fold's predictions and losses, an L2 penalty, a backward pass and an update. `loss.Add(el)` and `loss.Div(...)` discard their results (grad/xval.go:183-186), so `loss` stays the 0 leaf and `totLoss` holds the L2 term alone (grad/xval.go:190). The loop is left to the parameter because its result depends on float rounding and random weights; only the read of the architecture's first entry and the length check are modelled. How many outputs the trained model gives (two for a one-entry architecture, a `map2Pred` panic) is left to the trainer's predictor.
- CrossValidation.SearchBestHyperpar: the `%.4f` formatting and the `ParseFloat` of score keys are a parameter `keyOf`; keys are reals.
- CrossValidation.SearchBestHyperpar: requires a range with a positive step or one already exhausted. Otherwise the Go loop never ends (see Findings).
- CrossValidation.SearchBestHyperpar: a fold that panics, one that scores NaN on an empty holdout, and a `k` of 0 (the mean of no scores, NaN) all make the whole search `None`. A negative `k` is `None` because Go's `make(chan float64, xv.k)` panics (grad/xval.go:94); a `k` of 0 cannot come from `NewXVal`, whose `group` divides by it (grad/utils.go:32). In Go the NaN cases record the key `NaN` and go on; since every candidate then has the same empty folds, every key is `NaN`, none beats minus infinity in the selection, and the run ends in a panic as well.
- CrossValidation.SelectBest: Go iterates a map in random order. The model picks the highest key, which Go also reaches whatever the order, since only a strictly larger key replaces the choice.
- The sentinel `math.MaxFloat64` returned by `next` becomes `None`. A candidate equal to that float, which would end the Go loop early, is not modelled.
- Utils.Group: slicing labels past their length but within their capacity does not panic in Go; the model treats any slice past the length as a panic.
- Utils.Pop: `append(slice[:i], slice[i+1:]...)` overwrites the caller's backing array in Go; the model returns fresh sequences, and the fold copies the Go code makes before popping keep both the same. The model reads the popped element before the append, which `popValue` guarantees and `popLabel` does not (see Findings); the rest of the model uses this reading for both.
- Utils.Map2Pred: the mapped function is a pure function of the input, so the graph nodes created by `FeedForward` inside it are not threaded through.
- Utils.Map2Losses: likewise the loss function is pure, so the `MSE` nodes it builds are not threaded through the graph; `Utils.Mse` models one such loss on an explicit graph.
- Printing, `GetData`/`GetGrad` accessors, the `operation` marker types and `main.go` are not modelled.

## Findings

| source | as written | input that shows it | evidently intended | confidence | as-written member | corrected member |
|---|---|---|---|---|---|---|
| grad/engine.go:256-283 | `Relu` returns its node by value, so the graph holds a copy while the backward closure reads the gradient of the local `out`, which stays 0 | a positive leaf 2.0 under `Relu`, then `BackwardPass` on the rectifier: the leaf's gradient stays 0 | the leaf gains 1 times the rectifier's gradient, 1 | not executed | Engine.BackwardReluAsWritten, Engine.ReluBlocksGradient | Engine.BackwardRelu |
| grad/utils.go:56-60 | `popLabel` returns the element at the index and the in-place append in one return statement; the Go language leaves the order of the index read and the append call unspecified, and with the append first the element is read from the shifted array | label folds [[1.0], [2.0]] with index 0: read after the append, the holdout labels are [2.0], those of the second fold, while the holdout values are still the first fold's | the held-out fold's own labels, as `popValue` gets by reading the element on its own line first | not executed; depends on the evaluation order the compiler picks | Utils.PopLabelAppendFirst, Utils.PopLabelShifts, Utils.PopLabelMismatch | Utils.Pop |
| grad/xval.go:17-38 | `NewFloatingRange` accepts any step, and `next` only stops once `current` exceeds `end` | start 0.1, end 1.0, step 0 (or any negative step): `next` returns 0.1 (or ever smaller values) on every call, so the search loop never ends | a range that runs out, i.e. a positive step, or a range refused at construction | not executed | CrossValidation.NonPositiveStepNeverEnds | CrossValidation.NewFiniteRange |

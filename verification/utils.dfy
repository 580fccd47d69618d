/** The dataset and loss helpers of grad/utils.go: folding a dataset into
    groups, popping a holdout group, averages, the learning-rate schedule,
    and the squared-error and L2 graph builders. */
module Utils {
  import opened Optional
  import opened Engine
  import opened Topo
  import opened Backprop

  /** One input sample, a Go `[2]float64`. */
  type Point = (real, real)

  // ---------------------------------------------------------------------
  // Sums and averages
  // ---------------------------------------------------------------------

  /** The sum of `s` accumulated left to right from 0. */
  function Sum(s: seq<real>): real
  {
    if s == [] then 0.0 else Sum(s[..|s| - 1]) + s[|s| - 1]
  }

  /** Bounds on every element bound the sum. */
  lemma {:induction false} SumBounds(s: seq<real>, lo: real, hi: real)
    requires forall i :: 0 <= i < |s| ==> lo <= s[i] <= hi
    ensures lo * (|s| as real) <= Sum(s) <= hi * (|s| as real)
    decreases |s|
  {
    if s != [] {
      var n := |s|;
      var init := s[..n - 1];
      assert forall i :: 0 <= i < |init| ==> init[i] == s[i];
      SumBounds(init, lo, hi);
      assert lo * (n as real) == lo * ((n - 1) as real) + lo;
      assert hi * (n as real) == hi * ((n - 1) as real) + hi;
    }
  }

  /** `avgValue`: the sum divided by the length. The average of an empty
      sequence, 0/0 in IEEE arithmetic, is not a number: `None`. */
  function AvgValue(s: seq<real>): (r: Option<real>)
    ensures r.Some? <==> |s| > 0
    ensures r.Some? ==> r.value * (|s| as real) == Sum(s)
  {
    if |s| == 0 then None else Some(Sum(s) / (|s| as real))
  }

  /** The average lies between the smallest and the largest bound of the
      elements. */
  lemma AvgWithin(s: seq<real>, lo: real, hi: real)
    requires |s| > 0
    requires forall i :: 0 <= i < |s| ==> lo <= s[i] <= hi
    ensures lo <= AvgValue(s).value <= hi
  {
    SumBounds(s, lo, hi);
    QuotientBounds(Sum(s), |s| as real, lo, hi);
  }

  /** `lo * n <= x <= hi * n` bounds `x / n` for a positive `n`. */
  lemma QuotientBounds(x: real, n: real, lo: real, hi: real)
    requires n > 0.0 && lo * n <= x <= hi * n
    ensures lo <= x / n <= hi
  {
    assert (x / n) * n == x;
  }

  // ---------------------------------------------------------------------
  // Learning-rate schedule
  // ---------------------------------------------------------------------

  /** `Alpha`: `1 - 0.9 * pass / iterations`. With no iterations the Go
      division by a zero float yields an infinity or NaN: `None`. */
  function Alpha(pass: int, iterations: int): (r: Option<real>)
    ensures r.Some? <==> iterations != 0
    ensures r.Some? ==> (1.0 - r.value) * (iterations as real) == 0.9 * (pass as real)
  {
    if iterations == 0 then None
    else Some(1.0 - 0.9 * (pass as real) / (iterations as real))
  }

  /** The schedule starts at 1, ends at 0.1 after `iterations` passes and
      never rises in between. */
  lemma AlphaSchedule(p: int, q: int, n: int)
    requires n > 0 && 0 <= p <= q <= n
    ensures Alpha(0, n) == Some(1.0) && Alpha(n, n) == Some(0.1)
    ensures 0.1 <= Alpha(q, n).value <= Alpha(p, n).value <= 1.0
  {
    var nr := n as real;
    assert 0.9 * nr / nr == 0.9;
    QuotientMonotone(0.9 * (p as real), 0.9 * (q as real), nr);
    QuotientMonotone(0.9 * (q as real), 0.9 * nr, nr);
    QuotientMonotone(0.0, 0.9 * (p as real), nr);
  }

  lemma QuotientMonotone(x: real, y: real, n: real)
    requires n > 0.0 && x <= y
    ensures x / n <= y / n
  {
    assert (x / n) * n == x && (y / n) * n == y;
  }

  // ---------------------------------------------------------------------
  // Groups and holdouts
  // ---------------------------------------------------------------------

  /** `groups` are the first `n` consecutive slices of `s` of length
      `size`. */
  ghost predicate Sliced<T>(s: seq<T>, size: nat, n: nat, groups: seq<seq<T>>)
  {
    |groups| == n && forall i :: 0 <= i < n ==> SliceAt(s, size, i, groups[i])
  }

  /** `group` is the slice of `s` of length `size` starting at `i * size`. */
  ghost predicate SliceAt<T>(s: seq<T>, size: nat, i: nat, group: seq<T>)
  {
    (i + 1) * size <= |s| && group == s[i * size..(i + 1) * size]
  }

  /** `dataGroups` and `labelGroups` are the `k` consecutive slices of size
      `|data| / k` of `data` and of `labels`. */
  ghost predicate Partitioned(data: seq<Point>, labels: seq<real>, k: nat,
                              dataGroups: seq<seq<Point>>, labelGroups: seq<seq<real>>)
    requires k > 0
  {
    Sliced(data, |data| / k, k, dataGroups) && Sliced(labels, |data| / k, k, labelGroups)
  }

  /** The next slice extends the slicing by one group. */
  lemma SlicedStep<T>(s: seq<T>, size: nat, n: nat, groups: seq<seq<T>>, start: nat)
    requires Sliced(s, size, n, groups) && start == n * size && start + size <= |s|
    ensures Sliced(s, size, n + 1, groups + [s[start..start + size]])
  {
    assert (n + 1) * size == start + size;
    var groups' := groups + [s[start..start + size]];
    forall i | 0 <= i < n + 1
      ensures SliceAt(s, size, i, groups'[i])
    {
      if i < n {
        assert groups'[i] == groups[i];
      }
    }
  }

  lemma MulMonotone(a: nat, b: nat, c: nat)
    requires a <= b
    ensures a * c <= b * c
  {
  }

  /** `k` slices of size `|data| / k` fit in `data`. */
  lemma DivisionFits(n: nat, k: nat)
    requires k > 0
    ensures k * (n / k) == n - n % k <= n
  {
  }

  /** The slice after the first `i` ends within the first `k`. */
  lemma NextSliceFits(i: nat, k: nat, size: nat, start: nat)
    requires i < k && start == i * size
    ensures start + size == (i + 1) * size <= k * size
  {
    MulMonotone(i + 1, k, size);
  }

  /** `group`. A zero `k` is a Go division by zero: `None`. A negative `k`
      runs no iteration and yields no groups. Otherwise group `i` is the
      `i`-th slice of size `|data| / k`, and a label slice past the end of
      `labels` panics: `None`. */
  method Group(data: seq<Point>, labels: seq<real>, k: int)
    returns (r: Option<(seq<seq<Point>>, seq<seq<real>>)>)
    ensures r.None? <==> k == 0 || (k > 0 && k * (|data| / k) > |labels|)
    ensures k < 0 ==> r == Some(([], []))
    ensures r.Some? && k > 0 ==> Partitioned(data, labels, k, r.value.0, r.value.1)
  {
    if k == 0 {
      return None;
    }
    if k < 0 {
      return Some(([], []));
    }
    var size := |data| / k;
    DivisionFits(|data|, k);
    var dataGroups: seq<seq<Point>> := [];
    var labelGroups: seq<seq<real>> := [];
    var start := 0;
    var i := 0;
    while i < k
      invariant 0 <= i <= k && start == i * size && start <= |labels|
      invariant Sliced(data, size, i, dataGroups) && Sliced(labels, size, i, labelGroups)
    {
      NextSliceFits(i, k, size, start);
      if start + size > |labels| {
        return None;
      }
      SlicedStep(data, size, i, dataGroups, start);
      SlicedStep(labels, size, i, labelGroups, start);
      dataGroups := dataGroups + [data[start..start + size]];
      labelGroups := labelGroups + [labels[start..start + size]];
      start := start + size;
      i := i + 1;
    }
    r := Some((dataGroups, labelGroups));
  }

  /** The concatenation of a sequence of sequences, in order. */
  function Concat<T>(s: seq<seq<T>>): seq<T>
  {
    if s == [] then [] else Concat(s[..|s| - 1]) + s[|s| - 1]
  }

  lemma SlicedAt<T>(s: seq<T>, size: nat, n: nat, groups: seq<seq<T>>, i: nat)
    requires Sliced(s, size, n, groups) && i < n
    ensures (i + 1) * size <= |s| && groups[i] == s[i * size..(i + 1) * size]
  {
  }

  /** Dropping the last group keeps a slicing. */
  lemma SlicedPrefix<T>(s: seq<T>, size: nat, n: nat, groups: seq<seq<T>>)
    requires Sliced(s, size, n, groups) && n > 0
    ensures Sliced(s, size, n - 1, groups[..n - 1])
  {
    var init := groups[..n - 1];
    assert forall i :: 0 <= i < n - 1 ==> init[i] == groups[i];
  }

  /** Consecutive slices of size `size` concatenate to the prefix they
      cover. */
  lemma {:induction false} SlicesCover<T>(s: seq<T>, size: nat, n: nat, groups: seq<seq<T>>)
    requires Sliced(s, size, n, groups)
    ensures n * size <= |s| && Concat(groups) == s[..n * size]
    decreases n
  {
    if n > 0 {
      var last := n - 1;
      var start, end := last * size, n * size;
      SlicedPrefix(s, size, n, groups);
      SlicesCover(s, size, last, groups[..last]);
      SlicedAt(s, size, n, groups, last);
      NextSliceFits(last, n, size, start);
      assert Concat(groups) == Concat(groups[..last]) + groups[last];
      assert Concat(groups[..last]) == s[..start] && groups[last] == s[start..end];
      assert s[..end] == s[..start] + s[start..end];
    }
  }

  /** The groups of `group` concatenate to the data and labels with the last
      `|data| % k` items dropped. */
  lemma GroupDropsRemainder(data: seq<Point>, labels: seq<real>, k: nat,
                            dataGroups: seq<seq<Point>>, labelGroups: seq<seq<real>>)
    requires k > 0 && Partitioned(data, labels, k, dataGroups, labelGroups)
    ensures |data| - |data| % k <= |labels|
    ensures Concat(dataGroups) == data[..|data| - |data| % k]
    ensures Concat(labelGroups) == labels[..|data| - |data| % k]
  {
    DivisionFits(|data|, k);
    SlicesCover(data, |data| / k, k, dataGroups);
    SlicesCover(labels, |data| / k, k, labelGroups);
  }

  /** `popValue` and `popLabel`: the element at `i` and the rest in their
      original order. An index out of range panics: `None`. */
  function Pop<T>(s: seq<T>, i: int): (r: Option<(T, seq<T>)>)
    ensures r.Some? <==> 0 <= i < |s|
    ensures r.Some? ==> |r.value.1| == |s| - 1
    ensures r.Some? ==> s == r.value.1[..i] + [r.value.0] + r.value.1[i..]
  {
    if 0 <= i < |s| then
      var rest := s[..i] + s[i + 1..];
      assert rest[..i] == s[..i] && rest[i..] == s[i + 1..];
      Some((s[i], rest))
    else
      None
  }

  /** Popping removes exactly one occurrence of the popped element. */
  lemma PopMultiset<T>(s: seq<T>, i: int)
    requires 0 <= i < |s|
    ensures multiset(Pop(s, i).value.1) + multiset{Pop(s, i).value.0} == multiset(s)
  {
    var p := Pop(s, i).value;
    assert s == p.1[..i] + [p.0] + p.1[i..];
    assert p.1 == p.1[..i] + p.1[i..];
  }

  /** The backing array after the in-place `append(slice[:i], slice[i+1:]...)`
      on a slice whose capacity is its length: the elements after `i` move
      down one place and the last one stays where it was. */
  function ShiftDown<T>(s: seq<T>, i: nat): (r: seq<T>)
    requires i < |s|
    ensures |r| == |s| && r[|s| - 1] == s[|s| - 1]
    ensures forall j :: 0 <= j < i ==> r[j] == s[j]
    ensures forall j :: i <= j < |s| - 1 ==> r[j] == s[j + 1]
  {
    s[..i] + s[i + 1..] + [s[|s| - 1]]
  }

  /** `popLabel` evaluated in the other order the Go language allows for
      its single return statement: the append runs first and `slice[i]` is
      read from the shifted array. */
  function PopLabelAppendFirst<T>(s: seq<T>, i: int): (r: Option<(T, seq<T>)>)
    ensures r.Some? <==> 0 <= i < |s|
  {
    if 0 <= i < |s| then
      var shifted := ShiftDown(s, i);
      Some((shifted[i], shifted[..|s| - 1]))
    else
      None
  }

  /** Read after the append, the popped element is the following group for
      every index but the last, while the rest is the same; only the last
      index pops the same element either way. */
  lemma PopLabelShifts<T>(s: seq<T>, i: int)
    requires 0 <= i < |s|
    ensures PopLabelAppendFirst(s, i).value.1 == Pop(s, i).value.1
    ensures i < |s| - 1 ==> PopLabelAppendFirst(s, i).value.0 == s[i + 1]
    ensures i < |s| - 1 && s[i] != s[i + 1] ==> PopLabelAppendFirst(s, i) != Pop(s, i)
    ensures i == |s| - 1 ==> PopLabelAppendFirst(s, i) == Pop(s, i)
  {
    var shifted := ShiftDown(s, i);
    assert shifted[..|s| - 1] == s[..i] + s[i + 1..];
  }

  /** Two label folds: holding out the first returns the second's labels. */
  lemma PopLabelMismatch()
    ensures PopLabelAppendFirst([[1.0], [2.0]], 0) == Some(([2.0], [[2.0]]))
    ensures Pop([[1.0], [2.0]], 0) == Some(([1.0], [[2.0]]))
  {
    PopLabelShifts([[1.0], [2.0]], 0);
  }

  // ---------------------------------------------------------------------
  // Losses
  // ---------------------------------------------------------------------

  /** The difference `pred - expected` of `MSE`: a leaf for the expected
      value, its negation and the sum. */
  function Difference(g: Graph, pred: nat, expected: real): (r: Step)
    requires pred < |g|
    ensures Extends(g, r.graph) && |r.graph| == |g| + 4 && r.id == |g| + 3
    ensures r.graph[|g|] == Value(expected, 0.0, Leaf)
    ensures r.graph[|g| + 1] == Value(-1.0, 0.0, Leaf)
    ensures r.graph[|g| + 2].op == Multiplication(|g|, |g| + 1)
    ensures r.graph[|g| + 3] == Value(g[pred].data - expected, 0.0, Addition(pred, |g| + 2))
    ensures WellFormed(g) ==> WellFormed(r.graph)
  {
    var e := NewValue(g, expected);
    Sub(e.graph, pred, e.id)
  }

  /** `MSE`: a fresh leaf for the expected value, the difference, and its
      square. */
  function Mse(g: Graph, pred: nat, expected: real): (r: Step)
    requires pred < |g|
    ensures Extends(g, r.graph) && |r.graph| == |g| + 5 && r.id == |g| + 4
    ensures r.graph[|g|] == Value(expected, 0.0, Leaf)
    ensures r.graph[|g| + 1] == Value(-1.0, 0.0, Leaf)
    ensures r.graph[|g| + 2].op == Multiplication(|g|, |g| + 1)
    ensures r.graph[|g| + 3] == Value(g[pred].data - expected, 0.0, Addition(pred, |g| + 2))
    ensures r.graph[r.id].op == Power(|g| + 3, 2)
    ensures r.graph[r.id].data == (g[pred].data - expected) * (g[pred].data - expected)
    ensures WellFormed(g) ==> WellFormed(r.graph)
  {
    var d := Difference(g, pred, expected);
    IntPowerSmall(g[pred].data - expected);
    Pow(d.graph, d.id, 2)
  }

  /** A squared error reaches the prediction, the nodes the prediction
      reaches, and the five nodes it appended. */
  lemma MseReach(h: Graph, pred: nat, n: nat)
    requires WellFormed(h) && pred < n && n + 4 < |h|
    requires h[n].op == Leaf && h[n + 1].op == Leaf
    requires h[n + 2].op == Multiplication(n, n + 1)
    requires h[n + 3].op == Addition(pred, n + 2) && h[n + 4].op == Power(n + 3, 2)
    ensures pred in Reach(h, n + 4) && n + 3 in Reach(h, n + 4)
    ensures Reach(h, n + 4) <= {n, n + 1, n + 2, n + 3, n + 4} + Reach(h, pred)
  {
    assert Reach(h, n) == {n} && Reach(h, n + 1) == {n + 1};
    assert Reach(h, n + 2) == {n + 2} + Reach(h, n) + Reach(h, n + 1);
    assert Reach(h, n + 3) == {n + 3} + Reach(h, pred) + Reach(h, n + 2);
    assert Reach(h, n + 4) == {n + 4} + Reach(h, n + 3);
  }

  /** The local derivatives along a squared error: `2 * d` from the square
      to the difference, 1 from the difference to the prediction, 0 from
      every other appended node to the prediction. */
  lemma MseCoefs(h: Graph, pred: nat, n: nat, d: real)
    requires WellFormed(h) && pred < n && n + 4 < |h|
    requires h[n].op == Leaf && h[n + 1].op == Leaf
    requires h[n + 2].op == Multiplication(n, n + 1)
    requires h[n + 3] == Value(d, 0.0, Addition(pred, n + 2)) && h[n + 4].op == Power(n + 3, 2)
    ensures Coefs(h)(n + 4, n + 3) == 2.0 * d && Coefs(h)(n + 3, pred) == 1.0
    ensures Coefs(h)(n, pred) == 0.0 && Coefs(h)(n + 1, pred) == 0.0
    ensures Coefs(h)(n + 2, pred) == 0.0 && Coefs(h)(n + 4, pred) == 0.0
  {
    IntPowerSmall(d);
  }

  /** The chain-rule sums of a backward pass from a squared error leave
      `2 * (pred - expected)` on the prediction. */
  lemma MseIncoming(h: Graph, r: Graph, pred: nat, n: nat, root: nat, d: real)
    requires WellFormed(h) && pred < n && root == n + 4 && root < |h|
    requires h[n].op == Leaf && h[n + 1].op == Leaf
    requires h[n + 2].op == Multiplication(n, n + 1)
    requires h[n + 3] == Value(d, 0.0, Addition(pred, n + 2)) && h[root].op == Power(n + 3, 2)
    requires SameShape(h, r) && r[root].grad == 1.0
    requires forall j :: j in Reach(h, root) && j != root ==>
      j < |h| && r[j].grad == h[j].grad + Incoming(Coefs(h), r, Reach(h, root), j, root)
    ensures r[pred].grad == h[pred].grad + 2.0 * d
  {
    MseReach(h, pred, n);
    ReachBelow(h, pred);
    MseCoefs(h, pred, n, d);
    var reach := Reach(h, root);
    IncomingOnly(Coefs(h), r, reach, n + 3, root, root);
    IncomingOnly(Coefs(h), r, reach, pred, root, n + 3);
  }

  /** `MSE(pred, e)` then `BackwardPass` from it: the loss is
      `(pred - e)^2` and the prediction's gradient grows by `2 * (pred - e)`,
      whatever graph the prediction was computed by. */
  method MseGradient(g: Graph, pred: nat, expected: real) returns (r: Graph, loss: nat)
    requires WellFormed(g) && pred < |g|
    ensures |r| == |g| + 5 && loss == |g| + 4
    ensures r[loss].data == (g[pred].data - expected) * (g[pred].data - expected)
    ensures r[pred].grad == g[pred].grad + 2.0 * (g[pred].data - expected)
  {
    var s := Mse(g, pred, expected);
    loss := s.id;
    r := BackwardPass(s.graph, loss);
    assert s.graph[pred] == g[pred];
    MseIncoming(s.graph, r, pred, |g|, loss, g[pred].data - expected);
  }

  /** The squares of the values of the nodes `ps`. */
  function Squares(g: Graph, ps: seq<nat>): (r: seq<real>)
    requires forall i :: 0 <= i < |ps| ==> ps[i] < |g|
    ensures |r| == |ps|
  {
    seq(|ps|, i requires 0 <= i < |ps| => g[ps[i]].data * g[ps[i]].data)
  }

  /** A sum of squares is never negative. */
  lemma SquaresNonNegative(g: Graph, ps: seq<nat>)
    requires forall i :: 0 <= i < |ps| ==> ps[i] < |g|
    ensures Sum(Squares(g, ps)) >= 0.0
  {
    var s := Squares(g, ps);
    var hi := Sum(s);
    forall i | 0 <= i < |s|
      ensures 0.0 <= s[i]
    {
      var x := g[ps[i]].data;
      assert s[i] == x * x;
    }
    assert forall i :: 0 <= i < |s| ==> s[i] <= s[i] + 0.0;
    SumNonNegative(s);
  }

  lemma {:induction false} SumNonNegative(s: seq<real>)
    requires forall i :: 0 <= i < |s| ==> 0.0 <= s[i]
    ensures Sum(s) >= 0.0
    decreases |s|
  {
    if s != [] {
      var init := s[..|s| - 1];
      assert forall i :: 0 <= i < |init| ==> init[i] == s[i];
      SumNonNegative(init);
    }
  }

  /** The values of the nodes `xs`. */
  function Values(g: Graph, xs: seq<nat>): (r: seq<real>)
    requires forall i :: 0 <= i < |xs| ==> xs[i] < |g|
    ensures |r| == |xs|
  {
    seq(|xs|, i requires 0 <= i < |xs| => g[xs[i]].data)
  }

  /** The first loop of `L2`: one square node per parameter, in order. */
  method SquareAll(g: Graph, ps: seq<nat>) returns (h: Graph, squared: seq<nat>)
    requires forall i :: 0 <= i < |ps| ==> ps[i] < |g|
    ensures Extends(g, h) && |h| == |g| + |ps| && |squared| == |ps|
    ensures WellFormed(g) ==> WellFormed(h)
    ensures forall j :: 0 <= j < |ps| ==> squared[j] < |h|
    ensures Values(h, squared) == Squares(g, ps)
  {
    h := g;
    squared := [];
    var i := 0;
    while i < |ps|
      invariant 0 <= i <= |ps| && |squared| == i
      invariant Extends(g, h) && |h| == |g| + i
      invariant WellFormed(g) ==> WellFormed(h)
      invariant forall j :: 0 <= j < i ==> squared[j] < |h| && h[squared[j]].data == Squares(g, ps)[j]
    {
      IntPowerSmall(h[ps[i]].data);
      var s := Pow(h, ps[i], 2);
      h := s.graph;
      squared := squared + [s.id];
      i := i + 1;
    }
  }

  /** The second loop of `L2`: the nodes `xs` added one by one onto a fresh
      0 leaf; the last node holds their sum. */
  method SumAll(g: Graph, xs: seq<nat>) returns (r: Step)
    requires forall i :: 0 <= i < |xs| ==> xs[i] < |g|
    ensures Extends(g, r.graph) && |r.graph| == |g| + |xs| + 1 && r.id == |r.graph| - 1
    ensures r.graph[r.id].data == Sum(Values(g, xs))
    ensures WellFormed(g) ==> WellFormed(r.graph)
  {
    r := NewValue(g, 0.0);
    var i := 0;
    while i < |xs|
      invariant 0 <= i <= |xs|
      invariant Extends(g, r.graph) && |r.graph| == |g| + 1 + i && r.id == |r.graph| - 1
      invariant WellFormed(g) ==> WellFormed(r.graph)
      invariant r.graph[r.id].data == Sum(Values(g, xs)[..i])
    {
      assert Values(g, xs)[..i + 1][..i] == Values(g, xs)[..i];
      r := Add(r.graph, r.id, xs[i]);
      i := i + 1;
    }
    assert Values(g, xs)[..|xs|] == Values(g, xs);
  }

  /** `L2`: squares every parameter, adds the squares one by one onto a 0
      leaf, and multiplies the sum by the node `strength` (the Go `lambda`). The result holds
      `strength * (p_1^2 + ... + p_n^2)`. */
  method L2(g: Graph, ps: seq<nat>, strength: nat) returns (r: Step)
    requires strength < |g| && forall i :: 0 <= i < |ps| ==> ps[i] < |g|
    ensures Extends(g, r.graph) && |r.graph| == |g| + 2 * |ps| + 2 && r.id == |r.graph| - 1
    ensures r.graph[r.id].data == g[strength].data * Sum(Squares(g, ps))
    ensures r.graph[r.id].op == Multiplication(strength, r.id - 1)
    ensures WellFormed(g) ==> WellFormed(r.graph)
  {
    var h, squared := SquareAll(g, ps);
    var s := SumAll(h, squared);
    r := Mul(s.graph, strength, s.id);
  }

  // ---------------------------------------------------------------------
  // Element-wise maps
  // ---------------------------------------------------------------------

  /** `map2Pred`: the single output of `f` for each input, in order. An
      output that is not exactly one node panics: `None`. */
  method Map2Pred<A, B>(input: seq<A>, f: A -> seq<B>) returns (r: Option<seq<B>>)
    ensures r.Some? <==> forall i :: 0 <= i < |input| ==> |f(input[i])| == 1
    ensures r.Some? ==> |r.value| == |input|
    ensures r.Some? ==> forall i :: 0 <= i < |input| ==> |f(input[i])| == 1 && r.value[i] == f(input[i])[0]
  {
    var mapped: seq<B> := [];
    var i := 0;
    while i < |input|
      invariant 0 <= i <= |input| && |mapped| == i
      invariant forall j :: 0 <= j < i ==> |f(input[j])| == 1 && mapped[j] == f(input[j])[0]
    {
      var y := f(input[i]);
      if |y| != 1 {
        return None;
      }
      mapped := mapped + [y[0]];
      i := i + 1;
    }
    r := Some(mapped);
  }

  /** `map2Losses`: `f(input[i], expected[i])` for each input, in order.
      Fewer expectations than inputs is an index out of range: `None`. */
  method Map2Losses<A, B>(input: seq<A>, expected: seq<real>, f: (A, real) -> B) returns (r: Option<seq<B>>)
    ensures r.Some? <==> |input| <= |expected|
    ensures r.Some? ==> |r.value| == |input|
    ensures r.Some? ==> forall i :: 0 <= i < |input| ==> i < |expected| && r.value[i] == f(input[i], expected[i])
  {
    var mapped: seq<B> := [];
    var i := 0;
    while i < |input|
      invariant 0 <= i <= |input| && |mapped| == i
      invariant i <= |expected| || i == 0
      invariant forall j :: 0 <= j < i ==> j < |expected| && mapped[j] == f(input[j], expected[j])
    {
      if i >= |expected| {
        return None;
      }
      mapped := mapped + [f(input[i], expected[i])];
      i := i + 1;
    }
    r := Some(mapped);
  }
}

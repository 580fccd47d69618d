/** The hyperparameter search of grad/xval.go: a floating-point range of
    candidate L2 strengths, k-fold holdout scoring of each candidate, score
    buckets and the selection of the best candidate.

    The Go code scores the k folds of a candidate in k goroutines; here they
    run one after the other. Training is a parameter: `train` maps the
    architecture, the training folds and a candidate strength to the
    trained model's
    `FeedForward`, seen as the output values it gives for an input. The
    `%.4f` formatting of a mean score into a map key is a parameter
    `keyOf`. */
module CrossValidation {
  import opened Optional
  import opened Utils

  // ---------------------------------------------------------------------
  // Candidate range
  // ---------------------------------------------------------------------

  datatype FloatingRange = FloatingRange(start: real, end: real, step: real, current: real)

  /** `NewFloatingRange`: enumeration starts at `start`. Any step is
      accepted, including ones that never reach `end`
      (see `NonPositiveStepNeverEnds`). */
  function NewFloatingRange(start: real, end: real, step: real): (r: FloatingRange)
    ensures r.current == start
  {
    FloatingRange(start, end, step, start)
  }

  /** `floatingRange.next`: the current value, advancing by `step`, while it
      does not exceed `end`; past `end` the sentinel (`None`) and no change. */
  function Next(fr: FloatingRange): (r: (FloatingRange, Option<real>))
    ensures r.1.Some? <==> fr.current <= fr.end
    ensures r.1.Some? ==> r.1.value == fr.current && r.0 == fr.(current := fr.current + fr.step)
    ensures r.1.None? ==> r.0 == fr
  {
    if fr.current <= fr.end then (fr.(current := fr.current + fr.step), Some(fr.current))
    else (fr, None)
  }

  /** A fresh range yields `start` first unless `start > end`, when it is
      exhausted from the outset. */
  lemma FirstNext(start: real, end: real, step: real)
    ensures Next(NewFloatingRange(start, end, step)).1 == if start <= end then Some(start) else None
  {
  }

  /** Exhaustion is sticky: once `next` returns the sentinel, every later
      call does too and the range stays as it is. */
  lemma {:induction false} NextSticky(fr: FloatingRange, n: nat)
    requires Next(fr).1.None?
    ensures Next(Repeat(fr, n)).1.None? && Repeat(fr, n) == fr
    decreases n
  {
    if n > 0 {
      NextSticky(fr, n - 1);
    }
  }

  /** The range after `n` calls of `next`. */
  function Repeat(fr: FloatingRange, n: nat): FloatingRange
  {
    if n == 0 then fr else Next(Repeat(fr, n - 1)).0
  }

  /** Ranges whose enumeration ends: a positive step, or already past the
      end. The Go loop over any other range never stops. */
  predicate Finite(fr: FloatingRange)
  {
    fr.step > 0.0 || fr.current > fr.end
  }

  /** With a step that is not positive, a range that starts at or below
      its end yields on every call of `next`: the loop over it never ends. */
  lemma {:induction false} NonPositiveStepNeverEnds(fr: FloatingRange, n: nat)
    requires fr.step <= 0.0 && fr.current <= fr.end
    ensures Repeat(fr, n).current <= fr.current && Repeat(fr, n).step == fr.step && Repeat(fr, n).end == fr.end
    ensures Next(Repeat(fr, n)).1 == Some(Repeat(fr, n).current)
    decreases n
  {
    if n > 0 {
      NonPositiveStepNeverEnds(fr, n - 1);
    }
  }

  /** A range constructor that refuses the ranges `next` never exhausts:
      those with a step that is not positive and a start at or below the end.
      Every range it returns is `Finite`, the condition the search demands. */
  function NewFiniteRange(start: real, end: real, step: real): (r: Option<FloatingRange>)
    ensures r.Some? <==> step > 0.0 || start > end
    ensures r.Some? ==> r.value == NewFloatingRange(start, end, step) && Finite(r.value)
  {
    if step > 0.0 || start > end then Some(NewFloatingRange(start, end, step)) else None
  }

  /** How many values a finite range still yields. */
  function Remaining(fr: FloatingRange): nat
    requires Finite(fr)
  {
    if fr.current <= fr.end then ((fr.end - fr.current) / fr.step).Floor + 1 else 0
  }

  lemma QuotientShift(a: real, s: real)
    requires s > 0.0
    ensures (a - s) / s == a / s - 1.0
  {
    assert s / s == 1.0;
    assert (a - s) / s == a / s - s / s;
  }

  /** Each value `next` yields uses up one of the remaining ones. */
  lemma NextRemaining(fr: FloatingRange)
    requires Finite(fr) && fr.current <= fr.end
    ensures Finite(Next(fr).0) && Remaining(Next(fr).0) == Remaining(fr) - 1
  {
    var x := (fr.end - fr.current) / fr.step;
    var fr' := Next(fr).0;
    QuotientShift(fr.end - fr.current, fr.step);
    assert (fr.end - fr'.current) / fr.step == x - 1.0;
    if fr'.current <= fr.end {
      assert (x - 1.0).Floor == x.Floor - 1;
    } else {
      assert x < 1.0;
    }
  }

  /** The values a finite range yields until the sentinel. */
  function Drain(fr: FloatingRange): (r: seq<real>)
    requires Finite(fr)
    ensures |r| == Remaining(fr)
    decreases Remaining(fr)
  {
    var (fr', v) := Next(fr);
    if v.None? then []
    else
      NextRemaining(fr);
      [v.value] + Drain(fr')
  }

  /** Draining starts at `current` and climbs by `step`; every value
      drained is at most `end`, and the next one would exceed it. */
  lemma {:induction false} DrainValues(fr: FloatingRange)
    requires Finite(fr)
    ensures |Drain(fr)| > 0 ==> Drain(fr)[0] == fr.current
    ensures forall i :: 0 < i < |Drain(fr)| ==> Drain(fr)[i] == Drain(fr)[i - 1] + fr.step
    ensures forall i :: 0 <= i < |Drain(fr)| ==> Drain(fr)[i] <= fr.end
    ensures (if Drain(fr) == [] then fr.current else Drain(fr)[|Drain(fr)| - 1] + fr.step) > fr.end
    decreases Remaining(fr)
  {
    var (fr', v) := Next(fr);
    if v.Some? {
      NextRemaining(fr);
      DrainValues(fr');
      var r, rest := Drain(fr), Drain(fr');
      assert r == [fr.current] + rest;
      forall i | 0 < i < |r|
        ensures r[i] == r[i - 1] + fr.step
      {
        assert r[i] == rest[i - 1];
      }
    }
  }

  // ---------------------------------------------------------------------
  // Holdout scoring
  // ---------------------------------------------------------------------

  /** What training yields: the model's output values for an input. */
  type Predictor = Point -> seq<real>

  /** The training of `miniTrain`: a model of the architecture trained on
      the folds with the candidate strength. */
  type Trainer = (seq<nat>, seq<seq<Point>>, seq<seq<real>>, real) -> Predictor

  /** The number of predictions on the same side of 0 as their
      expectations. */
  function Agreements(preds: seq<real>, expected: seq<real>): (r: nat)
    requires |preds| <= |expected|
    ensures r <= |preds|
  {
    if preds == [] then 0
    else
      var n := |preds| - 1;
      Agreements(preds[..n], expected) + (if (preds[n] > 0.0) == (expected[n] > 0.0) then 1 else 0)
  }

  /** The positions whose prediction is on the same side of 0 as its
      expectation. */
  ghost function AgreeingAt(preds: seq<real>, expected: seq<real>): set<nat>
    requires |preds| <= |expected|
  {
    set i: nat | i < |preds| && (preds[i] > 0.0) == (expected[i] > 0.0)
  }

  /** The count is the number of agreeing positions. */
  lemma {:induction false} AgreementsCount(preds: seq<real>, expected: seq<real>)
    requires |preds| <= |expected|
    ensures Agreements(preds, expected) == |AgreeingAt(preds, expected)|
    decreases |preds|
  {
    if preds != [] {
      var n := |preds| - 1;
      var init := preds[..n];
      AgreementsCount(init, expected);
      var before, after := AgreeingAt(init, expected), AgreeingAt(preds, expected);
      if (preds[n] > 0.0) == (expected[n] > 0.0) {
        assert after == before + {n};
        assert n !in before;
      } else {
        assert after == before;
      }
    }
  }

  /** When every prediction agrees, all count; when none does, none counts. */
  lemma {:induction false} AgreementsExtremes(preds: seq<real>, expected: seq<real>)
    requires |preds| <= |expected|
    ensures (forall i :: 0 <= i < |preds| ==> (preds[i] > 0.0) == (expected[i] > 0.0)) ==>
      Agreements(preds, expected) == |preds|
    ensures (forall i :: 0 <= i < |preds| ==> (preds[i] > 0.0) != (expected[i] > 0.0)) ==>
      Agreements(preds, expected) == 0
    decreases |preds|
  {
    if preds != [] {
      var init := preds[..|preds| - 1];
      assert forall i :: 0 <= i < |init| ==> init[i] == preds[i];
      AgreementsExtremes(init, expected);
    }
  }

  /** `k` out of `n`, as a fraction. */
  function Share(k: nat, n: nat): real
    requires n > 0
  {
    k as real / n as real
  }

  /** The accuracy of `holdout`: the share of predictions on the same side
      of 0 as their expectations. Fewer expectations than predictions is an
      index out of range inside the loop, and no prediction at all gives
      0/0, NaN: both `None`, and since the loop has no other effect the
      model checks both before it starts. */
  method Accuracy(preds: seq<real>, expected: seq<real>) returns (r: Option<real>)
    ensures r.Some? <==> 0 < |preds| <= |expected|
    ensures r.Some? ==> 0 < |preds| <= |expected| && r.value == Share(Agreements(preds, expected), |preds|)
    ensures r.Some? ==> 0.0 <= r.value <= 1.0
  {
    if |preds| == 0 || |expected| < |preds| {
      return None;
    }
    var directionsSum := 0.0;
    var i := 0;
    while i < |preds|
      invariant 0 <= i <= |preds|
      invariant directionsSum == Agreements(preds[..i], expected) as real
    {
      assert preds[..i + 1][..i] == preds[..i];
      if (preds[i] > 0.0) == (expected[i] > 0.0) {
        directionsSum := directionsSum + 1.0;
      }
      i := i + 1;
    }
    assert preds[..|preds|] == preds;
    var n := |preds| as real;
    QuotientBounds(directionsSum, n, 0.0, 1.0);
    r := Some(directionsSum / n);
  }

  /** `miniTrain`: the model is built from the architecture, whose first
      entry is read, then the inputs and expectations are checked to pair
      up, then the model is trained. An empty architecture and folds that
      do not pair up both panic: `None`. */
  function MiniTrain(arch: seq<nat>, inputs: seq<seq<Point>>, expectations: seq<seq<real>>, strength: real,
                     train: Trainer): (r: Option<Predictor>)
    ensures r.Some? <==> |arch| > 0 && |inputs| == |expectations|
    ensures r.Some? ==> r.value == train(arch, inputs, expectations, strength)
  {
    if |arch| == 0 then None
    else if |inputs| != |expectations| then None
    else Some(train(arch, inputs, expectations, strength))
  }

  /** Every input gets exactly one output from the predictor. */
  ghost predicate SingleOutputs(inputs: seq<Point>, p: Predictor)
  {
    forall i :: 0 <= i < |inputs| ==> |p(inputs[i])| == 1
  }

  /** The single outputs of a predictor on the inputs, in order. */
  ghost function Predictions(inputs: seq<Point>, p: Predictor): (r: seq<real>)
    requires SingleOutputs(inputs, p)
    ensures |r| == |inputs|
  {
    seq(|inputs|, i requires 0 <= i < |inputs| && |p(inputs[i])| == 1 => p(inputs[i])[0])
  }

  /** The predictor trained on every fold but `idx`. */
  ghost function Trained(arch: seq<nat>, values: seq<seq<Point>>, labels: seq<seq<real>>, idx: nat,
                         strength: real, train: Trainer): Predictor
    requires idx < |values| && idx < |labels|
  {
    train(arch, values[..idx] + values[idx + 1..], labels[..idx] + labels[idx + 1..], strength)
  }

  /** Holding out fold `idx` gives a score: the fold exists, the folds pair
      up, there is an architecture to build, the trained predictor gives one
      output per holdout input, and the holdout is non-empty with a label
      for every input. */
  ghost predicate Scorable(arch: seq<nat>, values: seq<seq<Point>>, labels: seq<seq<real>>, idx: int,
                           strength: real, train: Trainer)
  {
    && 0 <= idx < |values| && |values| == |labels| && |arch| > 0
    && SingleOutputs(values[idx], Trained(arch, values, labels, idx, strength, train))
    && 0 < |values[idx]| <= |labels[idx]|
  }

  /** The score of holding out fold `idx`: the share of the holdout that
      the predictor trained on the other folds gets on the right side of 0. */
  ghost function FoldScore(arch: seq<nat>, values: seq<seq<Point>>, labels: seq<seq<real>>, idx: int,
                           strength: real, train: Trainer): (r: real)
    requires Scorable(arch, values, labels, idx, strength, train)
    ensures 0.0 <= r <= 1.0
  {
    var preds := Predictions(values[idx], Trained(arch, values, labels, idx, strength, train));
    var agree := Agreements(preds, labels[idx]);
    QuotientBounds(agree as real, |preds| as real, 0.0, 1.0);
    Share(agree, |preds|)
  }

  /** One worker of `SearchBestHyperpar`: fold `idx` is held out, the
      others train a model, and the holdout accuracy of that model is the
      score. Every panic on the way gives `None`. */
  method Fold(arch: seq<nat>, values: seq<seq<Point>>, labels: seq<seq<real>>, idx: int, strength: real,
              train: Trainer) returns (r: Option<real>)
    ensures r.Some? <==> Scorable(arch, values, labels, idx, strength, train)
    ensures r.Some? ==>
      Scorable(arch, values, labels, idx, strength, train) && r.value == FoldScore(arch, values, labels, idx, strength, train)
    ensures r.Some? ==> 0.0 <= r.value <= 1.0
  {
    var v := Pop(values, idx);
    var l := Pop(labels, idx);
    if v.None? || l.None? {
      return None;
    }
    var (holdoutValues, trainingValues) := v.value;
    var (holdoutLabels, trainingLabels) := l.value;
    var model := MiniTrain(arch, trainingValues, trainingLabels, strength, train);
    if model.None? {
      return None;
    }
    ghost var p := Trained(arch, values, labels, idx, strength, train);
    assert model.value == p;
    var preds := Map2Pred(holdoutValues, model.value);
    if preds.None? {
      return None;
    }
    assert preds.value == Predictions(holdoutValues, p);
    r := Accuracy(preds.value, holdoutLabels);
  }

  /** On the folds `group` makes, every holdout choice leaves training folds
      that pass the length check, and a holdout of as many labels as
      inputs. */
  lemma FoldsMatch(data: seq<Point>, labels: seq<real>, k: nat,
                   dataGroups: seq<seq<Point>>, labelGroups: seq<seq<real>>, idx: int)
    requires k > 0 && Partitioned(data, labels, k, dataGroups, labelGroups) && 0 <= idx < k
    ensures Pop(dataGroups, idx).Some? && Pop(labelGroups, idx).Some?
    ensures |Pop(dataGroups, idx).value.0| == |Pop(labelGroups, idx).value.0| == |data| / k
    ensures |Pop(dataGroups, idx).value.1| == |Pop(labelGroups, idx).value.1| == k - 1
  {
    SlicedAt(data, |data| / k, k, dataGroups, idx);
    SlicedAt(labels, |data| / k, k, labelGroups, idx);
  }

  // ---------------------------------------------------------------------
  // Score buckets and selection
  // ---------------------------------------------------------------------

  /** Candidates by score key, in the order they were tested. */
  type Scores = map<real, seq<real>>

  /** The bucket insertion of `SearchBestHyperpar`: a new key gets the
      bucket `[h]`, a known key gets `h` appended; no other bucket changes. */
  function Record(scores: Scores, key: real, h: real): (r: Scores)
    ensures r.Keys == scores.Keys + {key}
    ensures r[key] == (if key in scores then scores[key] else []) + [h]
    ensures forall k :: k in scores && k != key ==> r[k] == scores[k]
  {
    if key !in scores then scores[key := [h]]
    else scores[key := scores[key] + [h]]
  }

  /** The buckets after recording `(key, candidate)` pairs in order. */
  function RecordAll(scores: Scores, trials: seq<(real, real)>): Scores
  {
    if trials == [] then scores
    else
      var last := trials[|trials| - 1];
      Record(RecordAll(scores, trials[..|trials| - 1]), last.0, last.1)
  }

  /** The candidates of `trials` scored `key`, in trial order. */
  function Tested(trials: seq<(real, real)>, key: real): seq<real>
  {
    if trials == [] then []
    else
      var last := trials[|trials| - 1];
      Tested(trials[..|trials| - 1], key) + (if last.0 == key then [last.1] else [])
  }

  /** Starting from no buckets, the bucket of a key is exactly the
      candidates scored that key, in the order they were tested; keys no
      candidate scored have no bucket. */
  lemma {:induction false} RecordAllBuckets(trials: seq<(real, real)>, key: real)
    ensures key in RecordAll(map[], trials) <==> Tested(trials, key) != []
    ensures key in RecordAll(map[], trials) ==> RecordAll(map[], trials)[key] == Tested(trials, key)
    decreases |trials|
  {
    if trials != [] {
      RecordAllBuckets(trials[..|trials| - 1], key);
    }
  }

  /** `k` is the largest key. */
  ghost predicate IsBest(scores: Scores, k: real)
  {
    k in scores && forall k' :: k' in scores ==> k' <= k
  }

  /** The selection of `SearchBestHyperpar`: keys are visited in any order,
      starting from minus infinity and moving only to a strictly larger
      key; the result is the first candidate of the largest key's bucket.
      With no buckets the empty selection is indexed and panics: `None`. */
  method SelectBest(scores: Scores) returns (r: Option<real>)
    ensures scores == map[] ==> r.None?
    ensures forall k :: IsBest(scores, k) ==> r == if scores[k] == [] then None else Some(scores[k][0])
  {
    var remaining := scores.Keys;
    var maxKey: Option<real> := None;
    var hyperpars: seq<real> := [];
    while |remaining| > 0
      invariant remaining <= scores.Keys
      invariant maxKey.None? ==> remaining == scores.Keys && hyperpars == []
      invariant maxKey.Some? ==> maxKey.value in scores && hyperpars == scores[maxKey.value]
      invariant maxKey.Some? ==> forall k :: k in scores && k !in remaining ==> k <= maxKey.value
      decreases remaining
    {
      HasMember(remaining);
      var k :| k in remaining;
      if maxKey.None? || k > maxKey.value {
        maxKey := Some(k);
        hyperpars := scores[k];
      }
      remaining := remaining - {k};
    }
    if hyperpars == [] {
      return None;
    }
    r := Some(hyperpars[0]);
  }

  /** A set with a positive count has a member to pick. */
  lemma HasMember(s: set<real>)
    requires |s| > 0
    ensures exists x :: x in s
  {
    if forall x :: x !in s {
      assert false;
    }
  }

  /** A finite non-empty set of keys has a largest key. */
  lemma {:induction false} BestExists(keys: set<real>)
    requires keys != {}
    ensures exists k :: k in keys && forall k' :: k' in keys ==> k' <= k
    decreases |keys|
  {
    HasMember(keys);
    var x :| x in keys;
    if keys != {x} {
      BestExists(keys - {x});
      var m :| m in keys - {x} && forall k' :: k' in keys - {x} ==> k' <= m;
      var top := if x > m then x else m;
      forall k' | k' in keys
        ensures k' <= top
      {
        if k' != x {
          assert k' in keys - {x};
        }
      }
      assert top in keys;
    }
  }

  /** Selecting from the buckets of a sequence of trials picks, among the
      candidates with the largest key, the one tested first. */
  lemma SelectsEarliest(trials: seq<(real, real)>, k: real)
    requires IsBest(RecordAll(map[], trials), k)
    ensures Tested(trials, k) != [] && RecordAll(map[], trials)[k] == Tested(trials, k)
    ensures RecordAll(map[], trials)[k][0] == Tested(trials, k)[0]
  {
    RecordAllBuckets(trials, k);
  }

  // ---------------------------------------------------------------------
  // The search
  // ---------------------------------------------------------------------

  /** The state of a cross-validation run. The model under training, the
      learning-rate schedule and the loss function only serve the training
      loop, which is a parameter here. */
  datatype XVal = XVal(
    modelArch: seq<nat>,
    k: int,
    values: seq<seq<Point>>,
    labels: seq<seq<real>>,
    hyperRange: FloatingRange,
    cvScores: Scores)

  /** `NewXVal`: the `group` partition of the dataset and no scores yet. */
  method NewXVal(data: seq<Point>, labels: seq<real>, arch: seq<nat>, fr: FloatingRange, k: int)
    returns (r: Option<XVal>)
    ensures r.None? <==> k == 0 || (k > 0 && k * (|data| / k) > |labels|)
    ensures r.Some? ==> r.value.cvScores == map[] && r.value.hyperRange == fr && r.value.k == k
    ensures r.Some? ==> r.value.modelArch == arch
    ensures r.Some? && k > 0 ==> Partitioned(data, labels, k, r.value.values, r.value.labels)
    ensures r.Some? && k < 0 ==> r.value.values == [] && r.value.labels == []
  {
    var grouped := Group(data, labels, k);
    if grouped.None? {
      return None;
    }
    r := Some(XVal(arch, k, grouped.value.0, grouped.value.1, fr, map[]));
  }

  /** How many folds a candidate is scored on: `k` (a negative `k` never
      gets this far, see `CandidateScorable`). */
  function FoldCount(xv: XVal): nat
  {
    if xv.k > 0 then xv.k else 0
  }

  /** Every fold of the candidate gets a score. The buffered channel of
      capacity `k` is made before the fold loop, and making it panics for a
      negative `k`. */
  ghost predicate CandidateScorable(xv: XVal, strength: real, train: Trainer)
  {
    xv.k >= 0 &&
    forall ki :: 0 <= ki < FoldCount(xv) ==> Scorable(xv.modelArch, xv.values, xv.labels, ki, strength, train)
  }

  /** The scores of the candidate's folds, fold `ki` held out for each
      `ki < k`. */
  ghost function FoldScores(xv: XVal, strength: real, train: Trainer): (r: seq<real>)
    requires CandidateScorable(xv, strength, train)
    ensures |r| == FoldCount(xv)
  {
    seq(FoldCount(xv), ki requires 0 <= ki < FoldCount(xv) && Scorable(xv.modelArch, xv.values, xv.labels, ki, strength, train) =>
      FoldScore(xv.modelArch, xv.values, xv.labels, ki, strength, train))
  }

  /** The scores of one candidate: fold `ki` held out for each `ki < k`. */
  method ScoreCandidate(xv: XVal, strength: real, train: Trainer) returns (r: Option<seq<real>>)
    ensures r.Some? <==> CandidateScorable(xv, strength, train)
    ensures r.Some? ==> CandidateScorable(xv, strength, train) && r.value == FoldScores(xv, strength, train)
    ensures r.Some? ==> forall i :: 0 <= i < |r.value| ==> 0.0 <= r.value[i] <= 1.0
  {
    if xv.k < 0 {
      return None;
    }
    var scores: seq<real> := [];
    var ki := 0;
    while ki < xv.k
      invariant 0 <= ki <= FoldCount(xv) && |scores| == ki
      invariant forall i :: 0 <= i < ki ==> Scorable(xv.modelArch, xv.values, xv.labels, i, strength, train)
      invariant forall i :: 0 <= i < ki ==>
        scores[i] == FoldScore(xv.modelArch, xv.values, xv.labels, i, strength, train) && 0.0 <= scores[i] <= 1.0
    {
      var acc := Fold(xv.modelArch, xv.values, xv.labels, ki, strength, train);
      if acc.None? {
        return None;
      }
      scores := scores + [acc.value];
      ki := ki + 1;
    }
    assert scores == FoldScores(xv, strength, train);
    r := Some(scores);
  }

  /** Draining takes the current value, then drains the advanced range. */
  lemma DrainStep(fr: FloatingRange)
    requires Finite(fr) && Next(fr).1.Some?
    ensures Finite(Next(fr).0) && Remaining(Next(fr).0) < Remaining(fr)
    ensures Drain(fr) == [fr.current] + Drain(Next(fr).0)
  {
    NextRemaining(fr);
  }

  /** Recording one more trial records it on top of the earlier ones. */
  lemma RecordAllStep(scores: Scores, trials: seq<(real, real)>, key: real, h: real)
    ensures RecordAll(scores, trials + [(key, h)]) == Record(RecordAll(scores, trials), key, h)
  {
    assert (trials + [(key, h)])[..|trials|] == trials;
  }

  /** The candidate gets a score key: there are folds and each scores. */
  ghost predicate Keyed(xv: XVal, h: real, train: Trainer)
  {
    xv.k > 0 && CandidateScorable(xv, h, train)
  }

  /** A trainer whose models give one output for every input. */
  ghost predicate SingleOutputTrainer(train: Trainer)
  {
    forall arch, values, labels, strength, x :: |train(arch, values, labels, strength)(x)| == 1
  }

  /** On the folds `group` makes of at least `k` samples, with an
      architecture to build and a trainer whose models give one output,
      every candidate gets a score key. */
  lemma PartitionedKeyed(data: seq<Point>, labels: seq<real>, xv: XVal, h: real, train: Trainer)
    requires xv.k > 0 && Partitioned(data, labels, xv.k, xv.values, xv.labels)
    requires |xv.modelArch| > 0 && |data| >= xv.k && SingleOutputTrainer(train)
    ensures Keyed(xv, h, train)
  {
    DivisionFits(|data|, xv.k);
    assert |data| / xv.k > 0;
    forall ki | 0 <= ki < FoldCount(xv)
      ensures Scorable(xv.modelArch, xv.values, xv.labels, ki, h, train)
    {
      FoldsMatch(data, labels, xv.k, xv.values, xv.labels, ki);
    }
  }

  /** The mean of the candidate's fold scores. */
  ghost function MeanScore(xv: XVal, h: real, train: Trainer): (r: real)
    requires Keyed(xv, h, train)
    ensures 0.0 <= r <= 1.0
  {
    var scores := FoldScores(xv, h, train);
    AvgWithin(scores, 0.0, 1.0);
    AvgValue(scores).value
  }

  /** The key one candidate is recorded under: the key of the mean of its
      fold accuracies. A fold that panics, or no fold at all (a mean of 0/0),
      gives none. */
  method ScoreKey(xv: XVal, h: real, train: Trainer, keyOf: real -> real) returns (key: Option<real>)
    ensures key.Some? <==> Keyed(xv, h, train)
    ensures key.Some? ==> Keyed(xv, h, train) && key.value == keyOf(MeanScore(xv, h, train))
  {
    var accs := ScoreCandidate(xv, h, train);
    if accs.None? {
      return None;
    }
    var avg := AvgValue(accs.value);
    if avg.None? {
      return None;
    }
    key := Some(keyOf(avg.value));
  }

  /** While the range still yields, the value it yields is the next entry
      of the full drain, and the advanced range drains the rest. */
  lemma DrainAhead(fr: FloatingRange, all: seq<real>, t: nat)
    requires Finite(fr) && Next(fr).1.Some? && t <= |all| && Drain(fr) == all[t..]
    ensures Finite(Next(fr).0) && Remaining(Next(fr).0) < Remaining(fr)
    ensures t < |all| && all[t] == Next(fr).1.value && Drain(Next(fr).0) == all[t + 1..]
  {
    DrainStep(fr);
    assert all[t..][0] == all[t];
    assert all[t..][1..] == all[t + 1..];
  }

  /** Recording trials never removes a bucket, and only appends to the
      buckets already there. */
  lemma {:induction false} RecordAllKeeps(scores: Scores, trials: seq<(real, real)>)
    ensures forall k :: k in scores ==> k in RecordAll(scores, trials) && scores[k] <= RecordAll(scores, trials)[k]
    decreases |trials|
  {
    if trials != [] {
      var init, last := trials[..|trials| - 1], trials[|trials| - 1];
      RecordAllKeeps(scores, init);
      var before := RecordAll(scores, init);
      assert RecordAll(scores, trials) == Record(before, last.0, last.1);
      forall k | k in scores
        ensures k in RecordAll(scores, trials) && scores[k] <= RecordAll(scores, trials)[k]
      {
        assert scores[k] <= before[k];
        if k == last.0 {
          assert before[k] <= before[k] + [last.1];
        }
      }
    }
  }

  /** Every candidate gets a score key. */
  ghost predicate AllKeyed(xv: XVal, candidates: seq<real>, train: Trainer)
  {
    forall i :: 0 <= i < |candidates| ==> Keyed(xv, candidates[i], train)
  }

  /** Each trial pairs a candidate with the key of its mean fold score. */
  ghost predicate KeyedTrials(xv: XVal, trials: seq<(real, real)>, train: Trainer, keyOf: real -> real)
  {
    forall i :: 0 <= i < |trials| ==> Keyed(xv, trials[i].1, train) && trials[i].0 == keyOf(MeanScore(xv, trials[i].1, train))
  }

  lemma KeyedTrialsStep(xv: XVal, trials: seq<(real, real)>, train: Trainer, keyOf: real -> real, key: real, h: real)
    requires KeyedTrials(xv, trials, train, keyOf) && Keyed(xv, h, train) && key == keyOf(MeanScore(xv, h, train))
    ensures KeyedTrials(xv, trials + [(key, h)], train, keyOf)
  {
  }

  /** The trials' candidates are the first candidates of `all`, in order. */
  ghost predicate Follows(trials: seq<(real, real)>, all: seq<real>)
  {
    |trials| <= |all| && forall i :: 0 <= i < |trials| ==> trials[i].1 == all[i]
  }

  /** Trials that cover every candidate of `all` and are each keyed make
      every candidate keyed. */
  lemma FollowsKeyed(xv: XVal, trials: seq<(real, real)>, all: seq<real>, train: Trainer, keyOf: real -> real)
    requires Follows(trials, all) && |trials| == |all| && KeyedTrials(xv, trials, train, keyOf)
    ensures AllKeyed(xv, all, train)
  {
    forall i | 0 <= i < |all|
      ensures Keyed(xv, all[i], train)
    {
      assert trials[i].1 == all[i];
    }
  }

  /** The scoring loop of `SearchBestHyperpar`: every candidate of the
      range, in range order, is scored by the mean of its fold accuracies
      and recorded under that score's key; `trials` pairs each candidate
      with its key. A fold that panics gives no scores (`None`). */
  method ScoreRange(xv: XVal, train: Trainer, keyOf: real -> real)
    returns (scores: Option<Scores>, ghost trials: seq<(real, real)>)
    requires Finite(xv.hyperRange)
    ensures scores.Some? <==> AllKeyed(xv, Drain(xv.hyperRange), train)
    ensures scores.None? ==> |trials| < |Drain(xv.hyperRange)| && !Keyed(xv, Drain(xv.hyperRange)[|trials|], train)
    ensures KeyedTrials(xv, trials, train, keyOf) && Follows(trials, Drain(xv.hyperRange))
    ensures scores.Some? ==> scores.value == RecordAll(xv.cvScores, trials)
    ensures scores.Some? ==> |trials| == |Drain(xv.hyperRange)|
    ensures Drain(xv.hyperRange) == [] ==> scores == Some(xv.cvScores)
    ensures scores.Some? ==> forall k :: k in xv.cvScores ==> k in scores.value && xv.cvScores[k] <= scores.value[k]
  {
    var buckets := xv.cvScores;
    var fr := xv.hyperRange;
    ghost var all := Drain(xv.hyperRange);
    trials := [];
    var next := Next(fr);
    while next.1.Some?
      invariant Finite(fr) && Follows(trials, all) && Drain(fr) == all[|trials|..]
      invariant next == Next(fr)
      invariant KeyedTrials(xv, trials, train, keyOf)
      invariant buckets == RecordAll(xv.cvScores, trials)
      decreases Remaining(fr)
    {
      var h := next.1.value;
      DrainAhead(fr, all, |trials|);
      var scored := ScoreKey(xv, h, train, keyOf);
      if scored.None? {
        return None, trials;
      }
      var key := scored.value;
      KeyedTrialsStep(xv, trials, train, keyOf, key, h);
      RecordAllStep(xv.cvScores, trials, key, h);
      buckets := Record(buckets, key, h);
      trials := trials + [(key, h)];
      fr := next.0;
      next := Next(fr);
    }
    assert Drain(fr) == [];
    FollowsKeyed(xv, trials, all, train, keyOf);
    RecordAllKeeps(xv.cvScores, trials);
    scores := Some(buckets);
  }

  /** `SearchBestHyperpar`: the scores of every candidate, then the
      first-tested candidate of the best key. A fold that panics gives no
      scores (`None`); a search that records nothing panics in the
      selection and gives no candidate. */
  method SearchBestHyperpar(xv: XVal, train: Trainer, keyOf: real -> real)
    returns (r: Option<real>, scores: Option<Scores>, ghost trials: seq<(real, real)>)
    requires Finite(xv.hyperRange)
    ensures scores.Some? <==> AllKeyed(xv, Drain(xv.hyperRange), train)
    ensures scores.None? ==> r.None?
    ensures KeyedTrials(xv, trials, train, keyOf) && Follows(trials, Drain(xv.hyperRange))
    ensures scores.Some? ==> scores.value == RecordAll(xv.cvScores, trials)
    ensures scores.Some? ==> |trials| == |Drain(xv.hyperRange)|
    ensures scores.Some? ==> forall k :: IsBest(scores.value, k) ==>
      r == if scores.value[k] == [] then None else Some(scores.value[k][0])
    ensures scores.Some? && xv.cvScores == map[] ==> forall k :: IsBest(scores.value, k) ==>
      Tested(trials, k) != [] && r == Some(Tested(trials, k)[0])
    ensures scores.Some? && xv.cvScores == map[] ==> (r.Some? <==> Drain(xv.hyperRange) != [])
  {
    scores, trials := ScoreRange(xv, train, keyOf);
    if scores.None? {
      return None, scores, trials;
    }
    r := SelectBest(scores.value);
    forall k | xv.cvScores == map[] && IsBest(scores.value, k)
      ensures Tested(trials, k) != [] && r == Some(Tested(trials, k)[0])
    {
      SelectsEarliest(trials, k);
    }
    if xv.cvScores == map[] && trials != [] {
      var last := trials[|trials| - 1];
      RecordAllBuckets(trials, last.0);
      BestExists(scores.value.Keys);
      var k :| k in scores.value.Keys && forall k' :: k' in scores.value.Keys ==> k' <= k;
      assert IsBest(scores.value, k);
    }
  }
}

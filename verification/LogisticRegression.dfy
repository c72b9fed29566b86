/** The online binary classifier: featurize, predict, and learn by one gradient step. The
    arithmetic is over the reals, and the logistic function is any strictly increasing map
    into (0, 1). */
module LogisticRegression {
  import opened Common

  const LEARNING_RATE: real := 0.2

  ghost predicate IsSigmoid(f: real -> real) {
    && (forall z :: 0.0 < f(z) < 1.0)
    && (forall y, z :: y < z ==> f(y) < f(z))
  }

  datatype FeatureValue = Bool(b: bool) | Number(n: real) | Text(s: string) | Json

  /** A feature vector in name order; names are distinct. */
  type FeatureVector = seq<(string, FeatureValue)>

  /** One numeric input of the linear model. Two inputs may share a key: a text feature `a`
      with value `b` and a feature named `a=b` both use the key `a=b`. */
  datatype Input = Input(key: string, x: real)

  function InputOf(name: string, value: FeatureValue): seq<Input> {
    match value
    case Bool(b) => [Input(name, if b then 1.0 else 0.0)]
    case Number(n) => [Input(name, n)]
    case Text(s) => [Input(name + "=" + s, 1.0)]
    case Json => []
  }

  function Featurized(features: FeatureVector): seq<Input> {
    if features == [] then []
    else Featurized(features[..|features| - 1]) + InputOf(features[|features| - 1].0, features[|features| - 1].1)
  }

  method Featurize(features: FeatureVector) returns (out: seq<Input>)
    ensures out == Featurized(features)
  {
    out := [];
    for i := 0 to |features|
      invariant out == Featurized(features[..i])
    {
      var (name, value) := features[i];
      match value {
        case Bool(b) => out := out + [Input(name, if b then 1.0 else 0.0)];
        case Number(n) => out := out + [Input(name, n)];
        case Text(s) => out := out + [Input(name + "=" + s, 1.0)];
        case Json => assert out + [] == out;
      }
      assert features[..i + 1][..i] == features[..i];
    }
    assert features[..|features|] == features;
  }

  // ---- the model --------------------------------------------------------------------------

  datatype Model = Model(weights: map<string, real>, bias: real)

  function WeightOf(weights: map<string, real>, key: string): real {
    if key in weights then weights[key] else 0.0
  }

  /** The sum of `x * f(key)` over the inputs. */
  ghost function Dot(inputs: seq<Input>, f: string -> real): real {
    if inputs == [] then 0.0
    else Dot(inputs[..|inputs| - 1], f) + inputs[|inputs| - 1].x * f(inputs[|inputs| - 1].key)
  }

  ghost function AsFunction(weights: map<string, real>): string -> real {
    key => WeightOf(weights, key)
  }

  ghost function Logit(m: Model, inputs: seq<Input>): real {
    Dot(inputs, AsFunction(m.weights)) + m.bias
  }

  /** The sum of the inputs under one key. */
  ghost function KeySum(inputs: seq<Input>, key: string): real {
    if inputs == [] then 0.0
    else
      var last := inputs[|inputs| - 1];
      KeySum(inputs[..|inputs| - 1], key) + if last.key == key then last.x else 0.0
  }

  ghost function KeySums(inputs: seq<Input>): string -> real {
    key => KeySum(inputs, key)
  }

  /** The weight of one key has moved against the rate by the sum of the key's inputs. */
  ghost predicate WeightMoved(
      from: map<string, real>, inputs: seq<Input>, rate: real, to: map<string, real>, key: string)
  {
    WeightOf(to, key) == WeightOf(from, key) - rate * KeySum(inputs, key)
  }


  ghost predicate WeightsMoved(from: map<string, real>, inputs: seq<Input>, rate: real, to: map<string, real>) {
    forall key :: WeightMoved(from, inputs, rate, to, key)
  }

  /** The model a gradient step leads to. */
  ghost predicate Steps(m: Model, inputs: seq<Input>, gradient: real, m': Model) {
    && WeightsMoved(m.weights, inputs, LEARNING_RATE * gradient, m'.weights)
    && m'.bias == m.bias - LEARNING_RATE * gradient
  }

  /** The weight of one input's key, moved; a key not yet weighted starts from zero. */
  function Moved(weights: map<string, real>, input: Input, rate: real): map<string, real> {
    weights[input.key := WeightOf(weights, input.key) - rate * input.x]
  }

  lemma NoWeightMoved(weights: map<string, real>, rate: real)
    ensures WeightsMoved(weights, [], rate, weights)
  {
    assert rate * 0.0 == 0.0;
  }

  lemma OneMoreInput(
      start: map<string, real>, inputs: seq<Input>, rate: real, weights: map<string, real>, last: Input, key: string)
    requires WeightMoved(start, inputs, rate, weights, key)
    ensures WeightMoved(start, inputs + [last], rate, Moved(weights, last, rate), key)
  {
    assert (inputs + [last])[..|inputs|] == inputs;
    RateDistributes(rate, KeySum(inputs, key), if last.key == key then last.x else 0.0);
  }

  lemma OneMoreWeight(start: map<string, real>, inputs: seq<Input>, rate: real, weights: map<string, real>, last: Input)
    requires WeightsMoved(start, inputs, rate, weights)
    ensures WeightsMoved(start, inputs + [last], rate, Moved(weights, last, rate))
  {
    hide WeightMoved;
    hide Moved;
    forall key
      ensures WeightMoved(start, inputs + [last], rate, Moved(weights, last, rate), key)
    {
      OneMoreInput(start, inputs, rate, weights, last, key);
    }
  }

  lemma RateDistributes(rate: real, s: real, x: real)
    ensures rate * (s + x) == rate * s + rate * x
    ensures x == 0.0 ==> rate * x == 0.0
  {
  }

  class LogisticRegressionClassifier {
    const positiveLabel: string
    const negativeLabel: string
    const sigmoid: real -> real
    var model: Model

    constructor (positiveLabel: string, negativeLabel: string, sigmoid: real -> real)
      ensures this.positiveLabel == positiveLabel && this.negativeLabel == negativeLabel
      ensures this.sigmoid == sigmoid
      ensures model == Model(map[], 0.0)
    {
      this.positiveLabel := positiveLabel;
      this.negativeLabel := negativeLabel;
      this.sigmoid := sigmoid;
      this.model := Model(map[], 0.0);
    }

    /** The sigmoid of the weighted sum of the inputs plus the bias. */
    method Probability(inputs: seq<Input>) returns (p: real)
      ensures p == sigmoid(Logit(model, inputs))
    {
      var z := 0.0;
      for i := 0 to |inputs|
        invariant z == Dot(inputs[..i], AsFunction(model.weights))
      {
        z := z + WeightOf(model.weights, inputs[i].key) * inputs[i].x;
        assert inputs[..i + 1][..i] == inputs[..i];
      }
      assert inputs[..|inputs|] == inputs;
      p := sigmoid(z + model.bias);
    }

    /** Moves every weight, input by input. */
    static method Learn(start: map<string, real>, inputs: seq<Input>, rate: real)
      returns (weights: map<string, real>)
      ensures WeightsMoved(start, inputs, rate, weights)
    {
      weights := start;
      NoWeightMoved(start, rate);
      for i := 0 to |inputs|
        invariant WeightsMoved(start, inputs[..i], rate, weights)
      {
        hide WeightsMoved;
        hide Moved;
        OneMoreWeight(start, inputs[..i], rate, weights, inputs[i]);
        assert inputs[..i + 1] == inputs[..i] + [inputs[i]];
        weights := Moved(weights, inputs[i], rate);
      }
      assert inputs[..|inputs|] == inputs;
    }

    /** The probabilities of the two labels. */
    method Predict(features: FeatureVector) returns (scores: map<string, real>)
      ensures scores.Keys == {positiveLabel, negativeLabel}
      ensures scores[negativeLabel] == 1.0 - sigmoid(Logit(model, Featurized(features)))
      ensures positiveLabel != negativeLabel ==>
        scores[positiveLabel] == sigmoid(Logit(model, Featurized(features)))
    {
      var inputs := Featurize(features);
      var p := Probability(inputs);
      scores := map[];
      scores := scores[positiveLabel := p];
      scores := scores[negativeLabel := 1.0 - p];
    }

    /** Learns from one labelled example; a label of neither class is refused and changes
        nothing. */
    method Update(features: FeatureVector, taught: string) returns (r: Result<(), string>)
      modifies this
      ensures r.Ok? <==> taught == positiveLabel || taught == negativeLabel
      ensures r.Err? ==> model == old(model)
      ensures r.Ok? ==>
        var inputs := Featurized(features);
        var target := if taught == positiveLabel then 1.0 else 0.0;
        Steps(old(model), inputs, sigmoid(Logit(old(model), inputs)) - target, model)
    {
      var inputs := Featurize(features);
      var target;
      if taught == positiveLabel {
        target := 1.0;
      } else if taught == negativeLabel {
        target := 0.0;
      } else {
        return Err(taught);
      }
      var p := Probability(inputs);
      var gradient := p - target;
      var weights := Learn(model.weights, inputs, LEARNING_RATE * gradient);
      model := Model(weights, model.bias - LEARNING_RATE * gradient);
      return Ok(());
    }
  }

  // ---- what one step does to the logit ------------------------------------------------------

  /** The keys that occur, each once, in order of first occurrence. */
  ghost function Keys(inputs: seq<Input>): seq<string> {
    if inputs == [] then []
    else
      var keys := Keys(inputs[..|inputs| - 1]);
      var last := inputs[|inputs| - 1].key;
      if last in keys then keys else keys + [last]
  }

  /** The sum over a list of keys of the square of each key's inputs. */
  ghost function SumOfSquares(keys: seq<string>, inputs: seq<Input>): real {
    if keys == [] then 0.0
    else
      var s := KeySum(inputs, keys[|keys| - 1]);
      SumOfSquares(keys[..|keys| - 1], inputs) + s * s
  }

  /** The sum over a list of keys of the key's inputs times a factor. */
  ghost function SumByKey(keys: seq<string>, inputs: seq<Input>, f: string -> real): real {
    if keys == [] then 0.0
    else
      var key := keys[|keys| - 1];
      SumByKey(keys[..|keys| - 1], inputs, f) + KeySum(inputs, key) * f(key)
  }

  lemma {:induction false} KeysAreDistinct(inputs: seq<Input>)
    ensures Distinct(Keys(inputs))
    ensures forall i :: 0 <= i < |inputs| ==> inputs[i].key in Keys(inputs)
  {
    if inputs != [] {
      KeysAreDistinct(inputs[..|inputs| - 1]);
    }
  }

  lemma KeySumOfOneMore(inputs: seq<Input>, last: Input, key: string)
    ensures KeySum(inputs + [last], key) == KeySum(inputs, key) + if last.key == key then last.x else 0.0
  {
    assert (inputs + [last])[..|inputs|] == inputs;
  }

  /** One more input adds its share once, under its own key. */
  lemma {:induction false} SumByKeyOfOneMore(keys: seq<string>, inputs: seq<Input>, last: Input, f: string -> real)
    requires Distinct(keys)
    ensures SumByKey(keys, inputs + [last], f)
         == SumByKey(keys, inputs, f) + if last.key in keys then last.x * f(last.key) else 0.0
  {
    hide SumByKey;
    hide KeySum;
    if keys == [] {
      NoKeys(inputs, f);
      NoKeys(inputs + [last], f);
    } else {
      var init, key := keys[..|keys| - 1], keys[|keys| - 1];
      assert keys == init + [key] && key !in init;
      SumByKeyOfOneMore(init, inputs, last, f);
      NewKeyAtTheEnd(init, inputs, key, f);
      NewKeyAtTheEnd(init, inputs + [last], key, f);
      KeySumOfOneMore(inputs, last, key);
      if key == last.key {
        RateDistributes(f(key), KeySum(inputs, key), last.x);
      }
    }
  }

  /** A key with no inputs adds nothing. */
  lemma {:induction false} AbsentKeyAddsNothing(inputs: seq<Input>, key: string)
    requires forall i :: 0 <= i < |inputs| ==> inputs[i].key != key
    ensures KeySum(inputs, key) == 0.0
  {
    if inputs != [] {
      AbsentKeyAddsNothing(inputs[..|inputs| - 1], key);
    }
  }

  lemma NewKeyAtTheEnd(keys: seq<string>, inputs: seq<Input>, key: string, f: string -> real)
    ensures SumByKey(keys + [key], inputs, f) == SumByKey(keys, inputs, f) + KeySum(inputs, key) * f(key)
  {
    assert (keys + [key])[..|keys|] == keys;
  }

  /** Summing input by input is summing key by key. */
  lemma {:induction false} DotByKey(inputs: seq<Input>, f: string -> real)
    ensures Dot(inputs, f) == SumByKey(Keys(inputs), inputs, f)
  {
    hide SumByKey;
    if inputs == [] {
      NoKeys(inputs, f);
    } else {
      var init, last := inputs[..|inputs| - 1], inputs[|inputs| - 1];
      var keys := Keys(init);
      DotByKey(init, f);
      KeysAreDistinct(init);
      assert inputs == init + [last];
      SumByKeyOfOneMore(keys, init, last, f);
      if last.key !in keys {
        NewKeyAtTheEnd(keys, inputs, last.key, f);
        AbsentKeyAddsNothing(init, last.key);
        assert KeySum(inputs, last.key) == last.x;
      }
    }
  }

  lemma NoKeys(inputs: seq<Input>, f: string -> real)
    ensures SumByKey([], inputs, f) == 0.0
  {
  }

  lemma {:induction false} SquaresAreByKey(keys: seq<string>, inputs: seq<Input>)
    ensures SumByKey(keys, inputs, KeySums(inputs)) == SumOfSquares(keys, inputs)
    ensures SumOfSquares(keys, inputs) >= 0.0
  {
    if keys != [] {
      SquaresAreByKey(keys[..|keys| - 1], inputs);
      var s := KeySum(inputs, keys[|keys| - 1]);
      SquareNotNegative(s);
    }
  }

  lemma SquareNotNegative(s: real)
    ensures s * s >= 0.0
  {
  }

  lemma {:induction false} DotIsLinear(
      inputs: seq<Input>, f: string -> real, g: string -> real, h: string -> real, c: real)
    requires forall key :: h(key) == f(key) - c * g(key)
    ensures Dot(inputs, h) == Dot(inputs, f) - c * Dot(inputs, g)
  {
    if inputs != [] {
      var init, last := inputs[..|inputs| - 1], inputs[|inputs| - 1];
      DotIsLinear(init, f, g, h, c);
      var x, a, b, d := last.x, f(last.key), g(last.key), Dot(init, g);
      assert h(last.key) == a - c * b;
      Distribute(x, a, b, c, d);
    }
  }

  lemma Distribute(x: real, a: real, b: real, c: real, d: real)
    ensures x * (a - c * b) == x * a - c * (x * b)
    ensures c * (d + x * b) == c * d + c * (x * b)
  {
    assert x * (c * b) == c * (x * b);
  }

  /** One plus the sum over the distinct keys of the squared sum of the key's inputs. */
  ghost function Gain(inputs: seq<Input>): real {
    1.0 + SumOfSquares(Keys(inputs), inputs)
  }

  /** One step changes the logit of its own example by the learning rate times the error
      times the gain, keys colliding or not. */
  lemma StepMovesLogit(m: Model, inputs: seq<Input>, gradient: real, m': Model)
    requires Steps(m, inputs, gradient, m')
    ensures Logit(m', inputs) == Logit(m, inputs) - LEARNING_RATE * gradient * Gain(inputs)
    ensures Gain(inputs) >= 1.0
  {
    hide Steps;
    hide Dot;
    hide SumByKey;
    hide SumOfSquares;
    hide Keys;
    hide KeySums;
    hide AsFunction;
    var c := LEARNING_RATE * gradient;
    var w, w', sums := AsFunction(m.weights), AsFunction(m'.weights), KeySums(inputs);
    StepAsFunctions(m, inputs, gradient, m');
    DotIsLinear(inputs, w, sums, w', c);
    DotByKey(inputs, sums);
    SquaresAreByKey(Keys(inputs), inputs);
    OneAndSquares(c, SumOfSquares(Keys(inputs), inputs));
  }

  lemma StepAsFunctions(m: Model, inputs: seq<Input>, gradient: real, m': Model)
    requires Steps(m, inputs, gradient, m')
    ensures var w, w', sums := AsFunction(m.weights), AsFunction(m'.weights), KeySums(inputs);
            forall key :: w'(key) == w(key) - LEARNING_RATE * gradient * sums(key)
    ensures m'.bias == m.bias - LEARNING_RATE * gradient
  {
    forall key
      ensures AsFunction(m'.weights)(key)
           == AsFunction(m.weights)(key) - LEARNING_RATE * gradient * KeySums(inputs)(key)
    {
      assert WeightMoved(m.weights, inputs, LEARNING_RATE * gradient, m'.weights, key);
    }
  }

  lemma OneAndSquares(c: real, squares: real)
    ensures c * (1.0 + squares) == c + c * squares
  {
  }

  // ---- teaching one example again and again ---------------------------------------------------

  /** A run of updates on one example. */
  ghost predicate Taught(sigmoid: real -> real, inputs: seq<Input>, target: real, run: seq<Model>) {
    forall i :: 0 <= i < |run| - 1 ==>
      Steps(run[i], inputs, sigmoid(Logit(run[i], inputs)) - target, run[i + 1])
  }

  /** The probability given to the taught label. */
  ghost function TaughtProbability(sigmoid: real -> real, m: Model, inputs: seq<Input>, target: real): real {
    var p := sigmoid(Logit(m, inputs));
    if target == 1.0 then p else 1.0 - p
  }

  /** Each update strictly raises the probability of the taught label, which stays inside
      (0, 1) for ever. */
  lemma TeachingRaisesProbability(
      sigmoid: real -> real, inputs: seq<Input>, target: real, run: seq<Model>, i: nat, j: nat)
    requires IsSigmoid(sigmoid) && (target == 0.0 || target == 1.0)
    requires Taught(sigmoid, inputs, target, run) && i < j < |run|
    ensures 0.0 < TaughtProbability(sigmoid, run[i], inputs, target)
         < TaughtProbability(sigmoid, run[j], inputs, target) < 1.0
    decreases j
  {
    hide Steps;
    hide Logit;
    var m, m' := run[j - 1], run[j - 1 + 1];
    assert Steps(m, inputs, sigmoid(Logit(m, inputs)) - target, m');
    StepRaisesLogit(sigmoid, inputs, target, m, m');
    if i < j - 1 {
      TeachingRaisesProbability(sigmoid, inputs, target, run, i, j - 1);
    }
  }

  lemma SignOfMove(gradient: real, gain: real)
    requires gain >= 1.0
    ensures gradient > 0.0 ==> LEARNING_RATE * gradient * gain >= LEARNING_RATE * gradient > 0.0
    ensures gradient < 0.0 ==> LEARNING_RATE * gradient * gain <= LEARNING_RATE * gradient < 0.0
  {
  }

  /** The logit counted towards the taught label. */
  ghost function TaughtLogit(m: Model, inputs: seq<Input>, target: real): real {
    if target == 1.0 then Logit(m, inputs) else -Logit(m, inputs)
  }

  /** Below a bound the error is at least the error at the bound. */
  lemma ErrorBelowBound(sigmoid: real -> real, target: real, z: real, bound: real)
    requires IsSigmoid(sigmoid) && (target == 0.0 || target == 1.0)
    requires (if target == 1.0 then z else -z) <= bound
    ensures ErrorAt(sigmoid, target, bound) > 0.0
    ensures target == 1.0 ==>
      sigmoid(z) < target && -(LEARNING_RATE * (sigmoid(z) - target)) >= ErrorAt(sigmoid, target, bound)
    ensures target == 0.0 ==>
      sigmoid(z) > target && LEARNING_RATE * (sigmoid(z) - target) >= ErrorAt(sigmoid, target, bound)
  {
    if target == 1.0 {
      assert z == bound || sigmoid(z) < sigmoid(bound);
    } else {
      assert z == -bound || sigmoid(-bound) < sigmoid(z);
    }
  }

  /** Until the taught logit passes a bound, every update adds at least a fixed amount, set
      by the error at the bound. */
  lemma StepBelowBound(sigmoid: real -> real, inputs: seq<Input>, target: real, m: Model, m': Model, bound: real)
    requires IsSigmoid(sigmoid) && (target == 0.0 || target == 1.0)
    requires Steps(m, inputs, sigmoid(Logit(m, inputs)) - target, m')
    requires TaughtLogit(m, inputs, target) <= bound
    ensures TaughtLogit(m', inputs, target) >= TaughtLogit(m, inputs, target) + ErrorAt(sigmoid, target, bound)
    ensures ErrorAt(sigmoid, target, bound) > 0.0
  {
    var gradient := sigmoid(Logit(m, inputs)) - target;
    ErrorBelowBound(sigmoid, target, Logit(m, inputs), bound);
    hide IsSigmoid;
    hide ErrorAt;
    hide Logit;
    hide Gain;
    hide Steps;
    StepMovesLogit(m, inputs, gradient, m');
    SignOfMove(gradient, Gain(inputs));
  }

  lemma StepRaisesLogit(sigmoid: real -> real, inputs: seq<Input>, target: real, m: Model, m': Model)
    requires IsSigmoid(sigmoid) && (target == 0.0 || target == 1.0)
    requires Steps(m, inputs, sigmoid(Logit(m, inputs)) - target, m')
    ensures TaughtLogit(m', inputs, target) > TaughtLogit(m, inputs, target)
  {
    var gradient := sigmoid(Logit(m, inputs)) - target;
    StepMovesLogit(m, inputs, gradient, m');
    SignOfMove(gradient, Gain(inputs));
  }

  lemma OneMoreTimes(i: nat, e: real)
    ensures (i + 1) as real * e == i as real * e + e
  {
  }

  ghost function ErrorAt(sigmoid: real -> real, target: real, bound: real): real {
    LEARNING_RATE * if target == 1.0 then 1.0 - sigmoid(bound) else sigmoid(-bound)
  }

  lemma {:induction false} ProgressOfRun(
      sigmoid: real -> real, inputs: seq<Input>, target: real, run: seq<Model>, bound: real, i: nat)
    requires IsSigmoid(sigmoid) && (target == 0.0 || target == 1.0)
    requires i < |run| && Taught(sigmoid, inputs, target, run)
    ensures TaughtLogit(run[i], inputs, target) > bound
         || TaughtLogit(run[i], inputs, target)
            >= TaughtLogit(run[0], inputs, target) + i as real * ErrorAt(sigmoid, target, bound)
    decreases i
  {
    hide IsSigmoid;
    hide TaughtLogit;
    hide ErrorAt;
    hide Steps;
    if i > 0 {
      var m, m' := run[i - 1], run[i - 1 + 1];
      assert Steps(m, inputs, sigmoid(Logit(m, inputs)) - target, m');
      ProgressOfRun(sigmoid, inputs, target, run, bound, i - 1);
      StepRaisesLogit(sigmoid, inputs, target, m, m');
      if TaughtLogit(m, inputs, target) <= bound {
        StepBelowBound(sigmoid, inputs, target, m, m', bound);
      }
      OneMoreTimes(i - 1, ErrorAt(sigmoid, target, bound));
    }
  }

  /** Teaching one example often enough carries its logit past every bound, so its probability
      past every value the sigmoid takes. */
  lemma TeachingPassesEveryBound(sigmoid: real -> real, inputs: seq<Input>, target: real, run: seq<Model>, bound: real)
    requires IsSigmoid(sigmoid) && (target == 0.0 || target == 1.0)
    requires run != [] && Taught(sigmoid, inputs, target, run)
    requires TaughtLogit(run[0], inputs, target) + (|run| - 1) as real * ErrorAt(sigmoid, target, bound) > bound
    ensures TaughtLogit(run[|run| - 1], inputs, target) > bound
  {
    hide TaughtLogit;
    hide ErrorAt;
    hide IsSigmoid;
    ProgressOfRun(sigmoid, inputs, target, run, bound, |run| - 1);
  }

  // ---- what a feature is worth ----------------------------------------------------------------

  /** No features leave the bias. */
  lemma NoFeatures(m: Model)
    ensures Logit(m, Featurized([])) == m.bias
  {
  }

  lemma InputMovesLogit(m: Model, inputs: seq<Input>, key: string, x: real)
    ensures Logit(m, inputs + [Input(key, x)])
         == Logit(m, inputs) + x * (if key in m.weights then m.weights[key] else 0.0)
  {
    DotOfOneMore(inputs, Input(key, x), AsFunction(m.weights));
    hide Dot;
  }

  lemma FeatureAddsInput(features: FeatureVector, name: string, value: FeatureValue)
    ensures Featurized(features + [(name, value)]) == Featurized(features) + InputOf(name, value)
  {
    assert (features + [(name, value)])[..|features|] == features;
  }

  /** One more feature moves the logit by its weight, a key not yet weighted counting for nothing: a
      flag that is set by the weight of its name, a number by that many times the weight of its
      name, a text by the weight of its name and value together, anything else not at all. */
  lemma FeatureMovesLogit(m: Model, features: FeatureVector, name: string, value: FeatureValue)
    ensures var before, after := Logit(m, Featurized(features)), Logit(m, Featurized(features + [(name, value)]));
            var key := if value.Text? then name + "=" + value.s else name;
            var weight := if key in m.weights then m.weights[key] else 0.0;
            && (value.Bool? ==> after == if value.b then before + weight else before)
            && (value.Number? ==> after == before + value.n * weight)
            && (value.Text? ==> after == before + weight)
            && (value.Json? ==> after == before)
  {
    hide Logit;
    FeatureAddsInput(features, name, value);
    hide Featurized;
    var inputs := Featurized(features);
    match value
    case Bool(b) => InputMovesLogit(m, inputs, name, if b then 1.0 else 0.0);
    case Number(n) => InputMovesLogit(m, inputs, name, n);
    case Text(s) => InputMovesLogit(m, inputs, name + "=" + s, 1.0);
    case Json => assert inputs + [] == inputs;
  }

  /** The learning rate. */
  lemma StepInNumbers(m: Model, inputs: seq<Input>, gradient: real, m': Model)
    requires Steps(m, inputs, gradient, m')
    ensures Logit(m', inputs) == Logit(m, inputs) - 0.2 * gradient * Gain(inputs)
  {
    StepMovesLogit(m, inputs, gradient, m');
    hide Logit;
    hide Gain;
  }

  lemma DotOfOneMore(inputs: seq<Input>, last: Input, f: string -> real)
    ensures Dot(inputs + [last], f) == Dot(inputs, f) + last.x * f(last.key)
  {
    assert (inputs + [last])[..|inputs|] == inputs;
  }
}

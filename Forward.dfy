/**
 * The forward pass of NeuralNetwork.predict: each activation is a zero
 * bias cell followed by the layer's values, each layer is the sigmoid of
 * the activation times the transposed weights, and the label is the first
 * maximum of the last activation without its final cell, minus one.
 */
module Forward {
  import opened Wrappers
  import opened Matrices

  /** The exceptions predict can stop with. */
  datatype PredictError =
    | ShapeMismatch  // numpy.dot: weight columns differ from the activation width
    | EmptyOutput    // argmax of an empty row

  predicate AllValid(thetas: seq<Matrix>)
  {
    forall k :: 0 <= k < |thetas| ==> thetas[k].Valid()
  }

  /** `concatenate((zeros((1, 1)), z), 1)`: the bias cell is zero. */
  function Bias(z: seq<real>): (a: seq<real>)
    ensures |a| == |z| + 1 && a[0] == 0.0 && a[1..] == z
  {
    [0.0] + z
  }

  /** Sum of products of two equally long vectors. */
  function Inner(u: seq<real>, v: seq<real>): real
    requires |u| == |v|
  {
    if |u| == 0 then 0.0 else u[0] * v[0] + Inner(u[1..], v[1..])
  }

  /** `numpy.dot(a, numpy.transpose(theta))` for a single row `a`. */
  function Product(a: seq<real>, theta: Matrix): (p: seq<real>)
    requires theta.Valid() && |a| == theta.cols
    ensures |p| == theta.rows && forall k :: 0 <= k < theta.rows ==> p[k] == Inner(a, theta.cells[k])
  {
    seq(theta.rows, k requires 0 <= k < theta.rows => Inner(a, theta.cells[k]))
  }

  /** An elementwise function applied to a row. */
  function Apply(f: real -> real, v: seq<real>): (w: seq<real>)
    ensures |w| == |v| && forall k :: 0 <= k < |v| ==> w[k] == f(v[k])
  {
    seq(|v|, k requires 0 <= k < |v| => f(v[k]))
  }

  /** One layer: the sigmoid of the bias-augmented input times the transposed weights. */
  function Layer(theta: Matrix, z: seq<real>, sigmoid: real -> real): (out: seq<real>)
    requires theta.Valid() && theta.cols == |z| + 1
    ensures |out| == theta.rows
    ensures forall k :: 0 <= k < theta.rows ==> out[k] == sigmoid(Inner(Bias(z), theta.cells[k]))
  {
    Apply(sigmoid, Product(Bias(z), theta))
  }

  /**
   * Layer by layer, each weight matrix has one column more than the width
   * of the values it receives: the shape condition numpy.dot enforces.
   */
  predicate Compatible(thetas: seq<Matrix>, width: nat)
  {
    |thetas| == 0 || (thetas[0].cols == width + 1 && Compatible(thetas[1..], thetas[0].rows))
  }

  /** The values of the last layer (the input itself when there are no layers). */
  function FeedForward(thetas: seq<Matrix>, z: seq<real>, sigmoid: real -> real): (r: Result<seq<real>, PredictError>)
    requires AllValid(thetas)
    ensures r.Success? <==> Compatible(thetas, |z|)
    ensures r.Failure? ==> r.error == ShapeMismatch
    ensures r.Success? ==> |r.value| == if |thetas| == 0 then |z| else thetas[|thetas| - 1].rows
  {
    if |thetas| == 0 then Success(z)
    else if thetas[0].cols != |z| + 1 then Failure(ShapeMismatch)
    else FeedForward(thetas[1..], Layer(thetas[0], z, sigmoid), sigmoid)
  }

  /** Running the layers from the j-th on is one layer followed by the rest. */
  lemma FeedForwardStep(thetas: seq<Matrix>, j: nat, z: seq<real>, sigmoid: real -> real)
    requires AllValid(thetas) && j < |thetas|
    ensures FeedForward(thetas[j..], z, sigmoid) ==
      if thetas[j].cols != |z| + 1 then Failure(ShapeMismatch)
      else FeedForward(thetas[j + 1..], Layer(thetas[j], z, sigmoid), sigmoid)
  {
    assert thetas[j..][0] == thetas[j];
    assert thetas[j..][1..] == thetas[j + 1..];
  }

  /** The layers split at the last one. */
  lemma {:induction false} FeedForwardLast(thetas: seq<Matrix>, z: seq<real>, sigmoid: real -> real)
    requires AllValid(thetas) && |thetas| > 0
    ensures var last := thetas[|thetas| - 1];
      FeedForward(thetas, z, sigmoid) ==
        match FeedForward(thetas[..|thetas| - 1], z, sigmoid)
          case Failure(e) => Failure(e)
          case Success(h) => if last.cols != |h| + 1 then Failure(ShapeMismatch) else Success(Layer(last, h, sigmoid))
  {
    if |thetas| > 1 && thetas[0].cols == |z| + 1 {
      assert thetas[..|thetas| - 1][1..] == thetas[1..][..|thetas| - 2];
      FeedForwardLast(thetas[1..], Layer(thetas[0], z, sigmoid), sigmoid);
    }
  }

  /** The position of the first largest entry (numpy.argmax). */
  function FirstArgMax(s: seq<real>): (i: nat)
    requires |s| > 0
    ensures i < |s|
    ensures forall j :: 0 <= j < |s| ==> s[j] <= s[i]
    ensures forall j :: 0 <= j < i ==> s[j] < s[i]
  {
    if |s| == 1 then 0
    else
      var k := FirstArgMax(s[..|s| - 1]);
      if s[|s| - 1] > s[k] then |s| - 1 else k
  }

  /**
   * The label of the last layer's values `out`: the bias cell is put in
   * front, the final cell is dropped, and the first maximum is shifted
   * down by one.
   */
  function OutputLabel(out: seq<real>): (r: Result<int, PredictError>)
    ensures r.Success? <==> |out| > 0
    ensures r.Failure? ==> r.error == EmptyOutput
    ensures r.Success? ==> -1 <= r.value <= |out| - 2
    ensures r.Success? ==> (r.value == -1 <==> forall j :: 0 <= j < |out| - 1 ==> out[j] <= 0.0)
    ensures r.Success? && r.value >= 0 ==>
      && 0.0 < out[r.value]
      && (forall j :: 0 <= j < |out| - 1 ==> out[j] <= out[r.value])
      && (forall j :: 0 <= j < r.value ==> out[j] < out[r.value])
  {
    if |out| == 0 then Failure(EmptyOutput)
    else
      var h := Bias(out)[..|out|];
      assert forall j :: 0 <= j < |out| - 1 ==> h[j + 1] == out[j];
      Success(FirstArgMax(h) - 1)
  }

  /** What predict returns for the flattened image `x`. */
  function Label(thetas: seq<Matrix>, x: seq<real>, sigmoid: real -> real): (r: Result<int, PredictError>)
    requires AllValid(thetas)
    ensures r.Success? <==> Compatible(thetas, |x|) && FeedForward(thetas, x, sigmoid).value != []
  {
    match FeedForward(thetas, x, sigmoid)
      case Failure(e) => Failure(e)
      case Success(out) => OutputLabel(out)
  }

  /** The final output cell never influences the label. */
  lemma LastOutputIgnored(out: seq<real>, out': seq<real>)
    requires |out| == |out'| > 0 && out[..|out| - 1] == out'[..|out'| - 1]
    ensures OutputLabel(out) == OutputLabel(out')
  {
    assert Bias(out)[..|out|] == Bias(out')[..|out'|] by {
      forall j | 1 <= j < |out| ensures Bias(out)[j] == Bias(out')[j] {
        assert out[..|out| - 1][j - 1] == out'[..|out'| - 1][j - 1];
      }
    }
  }

  /** Two weight matrices that agree everywhere except in their last row. */
  predicate SameButLastRow(t: Matrix, t': Matrix)
  {
    && t.Valid() && t'.Valid() && t.rows == t'.rows > 0 && t.cols == t'.cols
    && t.cells[..t.rows - 1] == t'.cells[..t'.rows - 1]
  }

  /** Hence the weights of the last output unit never influence the label. */
  lemma LastUnitWeightsIgnored(thetas: seq<Matrix>, t': Matrix, x: seq<real>, sigmoid: real -> real)
    requires AllValid(thetas) && |thetas| > 0 && SameButLastRow(thetas[|thetas| - 1], t')
    ensures AllValid(thetas[|thetas| - 1 := t'])
    ensures Label(thetas, x, sigmoid) == Label(thetas[|thetas| - 1 := t'], x, sigmoid)
  {
    var n := |thetas|;
    var thetas' := thetas[n - 1 := t'];
    var t := thetas[n - 1];
    assert thetas'[..n - 1] == thetas[..n - 1];
    FeedForwardLast(thetas, x, sigmoid);
    FeedForwardLast(thetas', x, sigmoid);
    var prefix := FeedForward(thetas[..n - 1], x, sigmoid);
    if prefix.Success? && t.cols == |prefix.value| + 1 {
      var out, out' := Layer(t, prefix.value, sigmoid), Layer(t', prefix.value, sigmoid);
      forall j | 0 <= j < |out| - 1 ensures out[j] == out'[j] {
        assert t.cells[..t.rows - 1][j] == t'.cells[..t'.rows - 1][j];
      }
      assert out[..|out| - 1] == out'[..|out'| - 1];
      LastOutputIgnored(out, out');
    }
  }

  /** Two weight matrices that agree everywhere except in their bias column. */
  predicate SameButBiasColumn(t: Matrix, t': Matrix)
  {
    && t.Valid() && t'.Valid() && t.rows == t'.rows && t.cols == t'.cols > 0
    && forall k :: 0 <= k < t.rows ==> t.cells[k][1..] == t'.cells[k][1..]
  }

  lemma InnerBias(z: seq<real>, row: seq<real>, row': seq<real>)
    requires |row| == |row'| == |z| + 1 && row[1..] == row'[1..]
    ensures Inner(Bias(z), row) == Inner(Bias(z), row')
  {
    assert Bias(z)[1..] == z;
  }

  /**
   * The bias cell is zero, so the bias column of every weight matrix is
   * multiplied by zero and never influences the result.
   */
  lemma {:induction false} BiasColumnIgnored(thetas: seq<Matrix>, thetas': seq<Matrix>, z: seq<real>, sigmoid: real -> real)
    requires |thetas| == |thetas'|
    requires forall k :: 0 <= k < |thetas| ==> SameButBiasColumn(thetas[k], thetas'[k])
    ensures AllValid(thetas) && AllValid(thetas')
    ensures FeedForward(thetas, z, sigmoid) == FeedForward(thetas', z, sigmoid)
  {
    if |thetas| > 0 && thetas[0].cols == |z| + 1 {
      var t, t' := thetas[0], thetas'[0];
      forall k | 0 <= k < t.rows ensures Layer(t, z, sigmoid)[k] == Layer(t', z, sigmoid)[k] {
        InnerBias(z, t.cells[k], t'.cells[k]);
      }
      assert Layer(t, z, sigmoid) == Layer(t', z, sigmoid);
      BiasColumnIgnored(thetas[1..], thetas'[1..], Layer(t, z, sigmoid), sigmoid);
    }
  }

  /** With a positive sigmoid, every value of a layer is positive. */
  lemma {:induction false} FeedForwardPositive(thetas: seq<Matrix>, z: seq<real>, sigmoid: real -> real)
    requires AllValid(thetas) && |thetas| > 0
    requires forall v :: sigmoid(v) > 0.0
    requires FeedForward(thetas, z, sigmoid).Success?
    ensures forall j :: 0 <= j < |FeedForward(thetas, z, sigmoid).value| ==> FeedForward(thetas, z, sigmoid).value[j] > 0.0
  {
    if |thetas| > 1 {
      FeedForwardPositive(thetas[1..], Layer(thetas[0], z, sigmoid), sigmoid);
    }
  }

  /**
   * With a positive sigmoid, at least one layer and at least two output
   * units, the label is never -1.
   */
  lemma NoNegativeLabel(thetas: seq<Matrix>, x: seq<real>, sigmoid: real -> real)
    requires AllValid(thetas) && |thetas| > 0
    requires forall v :: sigmoid(v) > 0.0
    requires Compatible(thetas, |x|) && thetas[|thetas| - 1].rows >= 2
    ensures Label(thetas, x, sigmoid).Success? && Label(thetas, x, sigmoid).value >= 0
  {
    FeedForwardPositive(thetas, x, sigmoid);
    var out := FeedForward(thetas, x, sigmoid).value;
    assert out[0] > 0.0;
  }
}

/**
 * NeuralNetwork: the weight list read from a weight file (getNN), the
 * forward pass over one detection window (predict) and the scan of a
 * spectrogram over a grid of instants (search).
 */
module Classifier {
  import opened Wrappers
  import opened Matrices
  import opened Wideband
  import opened Extraction
  import opened WeightFile
  import opened Forward

  /** The exception search stops with: the one raised by format or by predict. */
  datatype SearchError = FormatFailed(format: FormatError) | PredictFailed(predict: PredictError)

  /** The label predict gives the window a new Spectra cuts around `t`. */
  function WindowLabel(s: Option<Spectrogram>, t: real, thetas: seq<Matrix>, sigmoid: real -> real,
                       percentile: (seq<real>, real) -> real): Result<int, SearchError>
    requires ValidSpectrum(s) && AllValid(thetas)
  {
    match Extract(s, t, DefaultThreshold, DefaultBand, DefaultBefore, DefaultAfter, percentile)
      case Failure(e) => Failure(FormatFailed(e))
      case Success(w) =>
        match Label(thetas, FlattenColumns(w.image, w.image.cols), sigmoid)
          case Failure(e) => Failure(PredictFailed(e))
          case Success(l) => Success(l)
  }

  /** The label of the window around each instant of the grid. */
  function Outcomes(s: Option<Spectrogram>, times: seq<real>, thetas: seq<Matrix>, sigmoid: real -> real,
                    percentile: (seq<real>, real) -> real): (labels: seq<Result<int, SearchError>>)
    requires ValidSpectrum(s) && AllValid(thetas)
    ensures |labels| == |times|
    ensures forall k :: 0 <= k < |times| ==> labels[k] == WindowLabel(s, times[k], thetas, sigmoid, percentile)
  {
    seq(|times|, k requires 0 <= k < |times| => WindowLabel(s, times[k], thetas, sigmoid, percentile))
  }

  /**
   * The search loop over the first `n` instants and their labels: the
   * first window that raises ends the scan; otherwise the truthy labels
   * are kept, in order.
   */
  function Scan(times: seq<real>, labels: seq<Result<int, SearchError>>, n: nat): Result<seq<real>, SearchError>
    requires |times| == |labels| && n <= |times|
  {
    if n == 0 then Success([])
    else
      match Scan(times, labels, n - 1)
        case Failure(e) => Failure(e)
        case Success(found) =>
          match labels[n - 1]
            case Failure(e) => Failure(e)
            case Success(l) => Success(if l != 0 then found + [times[n - 1]] else found)
  }

  /** The instants search keeps from the windows of a spectrogram. */
  function Detections(s: Option<Spectrogram>, times: seq<real>, thetas: seq<Matrix>, sigmoid: real -> real,
                      percentile: (seq<real>, real) -> real): Result<seq<real>, SearchError>
    requires ValidSpectrum(s) && AllValid(thetas)
  {
    Scan(times, Outcomes(s, times, thetas, sigmoid, percentile), |times|)
  }

  /** Which labels Python treats as true: every label but 0, -1 included. */
  function Truthy(labels: seq<Result<int, SearchError>>): (m: seq<bool>)
    ensures |m| == |labels|
    ensures forall k :: 0 <= k < |labels| ==> (m[k] <==> labels[k] != Success(0))
  {
    seq(|labels|, k requires 0 <= k < |labels| => labels[k] != Success(0))
  }

  /**
   * The scan succeeds exactly when every label does, and then keeps exactly
   * the instants whose label is truthy, in order.
   */
  lemma {:induction false} ScanSelectsTruthy(times: seq<real>, labels: seq<Result<int, SearchError>>, n: nat)
    requires |times| == |labels| && n <= |times|
    ensures Scan(times, labels, n).Success? <==> forall k :: 0 <= k < n ==> labels[k].Success?
    ensures Scan(times, labels, n).Success? ==> Scan(times, labels, n).value == Select(times[..n], Truthy(labels)[..n])
  {
    if n > 0 {
      ScanSelectsTruthy(times, labels, n - 1);
      var m := Truthy(labels);
      assert times[..n] == times[..n - 1] + [times[n - 1]] && m[..n] == m[..n - 1] + [m[n - 1]];
      SelectSnoc(times[..n - 1], m[..n - 1], times[n - 1], m[n - 1]);
    }
  }

  /** The scan raises the exception of the first window that raises. */
  lemma {:induction false} ScanFirstFailure(times: seq<real>, labels: seq<Result<int, SearchError>>, j: nat, n: nat)
    requires |times| == |labels| && j < n <= |times|
    requires forall k :: 0 <= k < j ==> labels[k].Success?
    requires labels[j].Failure?
    ensures Scan(times, labels, n) == Failure(labels[j].error)
  {
    if j < n - 1 {
      ScanFirstFailure(times, labels, j, n - 1);
    } else {
      ScanSelectsTruthy(times, labels, n - 1);
    }
  }

  /** Once a prefix of the grid raises, the whole scan raises the same. */
  lemma {:induction false} ScanFailureSticks(times: seq<real>, labels: seq<Result<int, SearchError>>, j: nat, n: nat)
    requires |times| == |labels| && j <= n <= |times|
    requires Scan(times, labels, j).Failure?
    ensures Scan(times, labels, n) == Scan(times, labels, j)
  {
    if j < n {
      ScanFailureSticks(times, labels, j, n - 1);
    }
  }

  /**
   * search succeeds exactly when every window is cut and labelled, and
   * then keeps exactly the instants whose label is not zero, in order.
   */
  lemma DetectionsSelectNonZero(s: Option<Spectrogram>, times: seq<real>, thetas: seq<Matrix>,
                                sigmoid: real -> real, percentile: (seq<real>, real) -> real)
    requires ValidSpectrum(s) && AllValid(thetas)
    ensures var r := Detections(s, times, thetas, sigmoid, percentile);
      var labels := Outcomes(s, times, thetas, sigmoid, percentile);
      && (r.Success? <==> forall k :: 0 <= k < |times| ==> labels[k].Success?)
      && (r.Success? ==> r.value == Select(times, Truthy(labels)))
  {
    var labels := Outcomes(s, times, thetas, sigmoid, percentile);
    ScanSelectsTruthy(times, labels, |times|);
    assert times[..|times|] == times && Truthy(labels)[..|times|] == Truthy(labels);
  }

  /** A window labelled -1 is truthy, so search keeps it. */
  lemma NegativeLabelKept(s: Option<Spectrogram>, times: seq<real>, thetas: seq<Matrix>, sigmoid: real -> real,
                          percentile: (seq<real>, real) -> real, k: nat)
    requires ValidSpectrum(s) && AllValid(thetas) && k < |times|
    requires WindowLabel(s, times[k], thetas, sigmoid, percentile) == Success(-1)
    requires Detections(s, times, thetas, sigmoid, percentile).Success?
    ensures times[k] in Detections(s, times, thetas, sigmoid, percentile).value
  {
    var labels := Outcomes(s, times, thetas, sigmoid, percentile);
    ScanSelectsTruthy(times, labels, |times|);
    assert times[..|times|] == times && Truthy(labels)[..|times|] == Truthy(labels);
    SelectAt(times, Truthy(labels), k);
  }

  /** The instants the kept windows were cut around. */
  function Times(whistlers: seq<Spectra>): (r: seq<real>)
    reads whistlers
    ensures |r| == |whistlers|
  {
    seq(|whistlers|, k requires 0 <= k < |whistlers| reads whistlers => whistlers[k].time)
  }

  /** The classifier: one weight matrix per layer. */
  class NeuralNetwork {
    var Theta: seq<Matrix>

    ghost predicate Valid()
      reads this
    {
      AllValid(Theta)
    }

    constructor ()
      ensures Valid() && Theta == []
    {
      Theta := [];
    }

    /**
     * Reads the weight file given as its lines of tokens. On an exception
     * Theta keeps the blocks completed before it.
     */
    method GetNN(lines: seq<seq<Token>>) returns (outcome: Outcome<ParseError>)
      modifies this
      ensures Valid() && Theta == ParseWeights(lines).blocks
      ensures outcome == match ParseWeights(lines).error
        case None => Pass
        case Some(e) => Fail(e)
    {
      Theta := [];
      var thetaShape := LineAt(lines, 0);
      var pos: nat := 1;
      while |thetaShape| > 0
        invariant AllValid(Theta)
        invariant ParseBlocks(thetaShape, lines, pos, Theta) == ParseWeights(lines)
        decreases |thetaShape|
      {
        var block, rest, next := ReadNextBlock(thetaShape, lines, pos);
        if block.Failure? {
          return Fail(block.error);
        }
        Theta := Theta + [block.value];
        thetaShape, pos := rest, next;
      }
      return Pass;
    }

    /** Runs the layers over the column-major flattening of the window's image. */
    method Predict(spectra: Spectra, sigmoid: real -> real) returns (prediction: Result<int, PredictError>)
      requires Valid() && spectra.image.Valid()
      ensures prediction == Label(Theta, FlattenColumns(spectra.image, spectra.image.cols), sigmoid)
    {
      var theta := Theta;
      var image := FlattenColumns(spectra.image, spectra.image.cols);
      var nLayers := |theta|;
      var z: seq<seq<real>> := seq(nLayers + 1, _ => []);
      var a: seq<seq<real>> := seq(nLayers + 1, _ => []);
      z := z[0 := image];
      for i := 0 to nLayers + 1
        invariant |z| == |a| == nLayers + 1
        invariant 0 < i ==> a[i - 1] == Bias(z[i - 1])
        invariant 0 < i ==> FeedForward(theta[i - 1..], z[i - 1], sigmoid) == FeedForward(theta, image, sigmoid)
      {
        if i == 0 {
          z := z[0 := image];
          assert theta[0..] == theta;
        } else {
          FeedForwardStep(theta, i - 1, z[i - 1], sigmoid);
          if theta[i - 1].cols != |a[i - 1]| {
            return Failure(ShapeMismatch);
          }
          var zPrime := Product(a[i - 1], theta[i - 1]);
          z := z[i := Apply(sigmoid, zPrime)];
        }
        a := a[i := Bias(z[i])];
      }
      a := a[nLayers := a[nLayers][..|a[nLayers]| - 1]];
      var h := a[nLayers];
      if |h| == 0 {
        return Failure(EmptyOutput);
      }
      var p: int := FirstArgMax(h);
      return Success(p - 1);
    }

    /**
     * The body of the search loop: a new Spectra formatted around `t`, and
     * the label predict gives it or the exception either raises.
     */
    method LabelWindow(wideband: WidebandVLF, t: real, sigmoid: real -> real,
                       percentile: (seq<real>, real) -> real) returns (spectra: Spectra, outcome: Result<int, SearchError>)
      requires Valid() && wideband.Valid()
      ensures fresh(spectra) && spectra.time == t
      ensures outcome == WindowLabel(wideband.Spectrum(), t, Theta, sigmoid, percentile)
    {
      spectra := new Spectra();
      var formatted := spectra.Format(wideband, t, percentile);
      if formatted.Fail? {
        return spectra, Failure(FormatFailed(formatted.error));
      }
      var located := Predict(spectra, sigmoid);
      if located.Failure? {
        return spectra, Failure(PredictFailed(located.error));
      }
      outcome := Success(located.value);
    }

    /** One pass of the search loop: the window joins `kept` when its label is truthy. */
    method Visit(wideband: WidebandVLF, t: real, sigmoid: real -> real, percentile: (seq<real>, real) -> real,
                 kept: seq<Spectra>) returns (kept': seq<Spectra>, outcome: Result<int, SearchError>)
      requires Valid() && wideband.Valid()
      ensures outcome == WindowLabel(wideband.Spectrum(), t, Theta, sigmoid, percentile)
      ensures Times(kept') == old(Times(kept)) + (if outcome.Success? && outcome.value != 0 then [t] else [])
    {
      var spectra;
      spectra, outcome := LabelWindow(wideband, t, sigmoid, percentile);
      kept' := kept;
      if outcome.Success? && outcome.value != 0 {
        assert Times(kept + [spectra]) == Times(kept) + [t];
        kept' := kept + [spectra];
      }
    }

    /**
     * Cuts a new window around each instant of `times` (the 0.2 s grid up
     * to 60 s), labels it and keeps the windows whose label is not zero.
     */
    method Search(wideband: WidebandVLF, times: seq<real>, sigmoid: real -> real,
                  percentile: (seq<real>, real) -> real) returns (whistlers: Result<seq<Spectra>, SearchError>)
      requires Valid() && wideband.Valid()
      ensures match Detections(wideband.Spectrum(), times, Theta, sigmoid, percentile)
        case Success(found) => whistlers.Success? && Times(whistlers.value) == found
        case Failure(e) => whistlers == Failure(e)
    {
      ghost var labels := Outcomes(wideband.Spectrum(), times, Theta, sigmoid, percentile);
      var kept: seq<Spectra> := [];
      ghost var found: seq<real> := [];
      for i := 0 to |times|
        invariant Scan(times, labels, i) == Success(found)
        invariant Times(kept) == found
      {
        var outcome;
        kept, outcome := Visit(wideband, times[i], sigmoid, percentile, kept);
        assert outcome == labels[i];
        if outcome.Failure? {
          ScanFailureSticks(times, labels, i + 1, |times|);
          return Failure(outcome.error);
        }
        if outcome.value != 0 {
          found := found + [times[i]];
        }
      }
      return Success(kept);
    }
  }

  /**
   * One pass of getNN's header loop: pops the block's (m, n) pair off the
   * header and reads the block from the lines starting at `pos`. On
   * success `rest` is the header still to be popped and `next` the line
   * after the block's skipped separator line.
   */
  method ReadNextBlock(thetaShape: seq<Token>, lines: seq<seq<Token>>, pos: nat)
    returns (block: Result<Matrix, ParseError>, rest: seq<Token>, next: nat)
    requires |thetaShape| > 0
    ensures block.Failure? ==>
      forall blocks :: ParseBlocks(thetaShape, lines, pos, blocks) == Parsed(blocks, Some(block.error))
    ensures block.Success? ==>
      && block.value.Valid()
      && |rest| < |thetaShape|
      && forall blocks :: ParseBlocks(thetaShape, lines, pos, blocks) == ParseBlocks(rest, lines, next, blocks + [block.value])
  {
    rest, next := thetaShape, pos;
    var mToken := rest[0];
    rest := rest[1..];
    if mToken.asInt.None? {
      return Failure(NotAnInteger), rest, next;
    }
    if |rest| == 0 {
      return Failure(MissingToken), rest, next;
    }
    var nToken := rest[0];
    rest := rest[1..];
    assert rest == thetaShape[2..];
    if nToken.asInt.None? {
      return Failure(NotAnInteger), rest, next;
    }
    var m, n := mToken.asInt.value, nToken.asInt.value;
    if m < 0 || n < 0 {
      return Failure(NegativeDimension), rest, next;
    }
    var theta, fail := ReadBlock(lines, pos, m, n);
    if fail.Some? {
      return Failure(fail.value), rest, next;
    }
    var b := ToMatrix(theta);
    assert b == Matrix(m, n, ReadRows(lines, pos, m, n).value);
    forall blocks ensures ParseBlocks(thetaShape, lines, pos, blocks) == ParseBlocks(rest, lines, pos + m + 1, blocks + [b]) {
      ParseBlocksStep(thetaShape, lines, pos, blocks, m, n);
    }
    return Success(b), rest, pos + m + 1;
  }

  /**
   * Reads the m rows of one block starting at line `pos`, each row from
   * the first n tokens of its line; reports the first bad row's error.
   */
  method ReadBlock(lines: seq<seq<Token>>, pos: nat, m: nat, n: nat)
    returns (theta: array2<real>, fail: Option<ParseError>)
    ensures match ReadRows(lines, pos, m, n)
      case Success(rows) => fail == None && ToMatrix(theta) == Matrix(m, n, rows)
      case Failure(e) => fail == Some(e)
  {
    theta := new real[m, n]((i: nat, j: nat) => 0.0);
    var next := pos;
    for i := 0 to m
      invariant next == pos + i
      invariant theta.Length0 == m && theta.Length1 == n
      invariant forall r :: 0 <= r < i ==> RowAt(lines, pos, r, n).Success?
      invariant forall r, c :: 0 <= r < i && 0 <= c < n ==> RowAt(lines, pos, r, n).value[c] == theta[r, c]
    {
      var newLine := LineAt(lines, next);
      next := next + 1;
      for j := 0 to n
        invariant j <= |newLine| && forall c :: 0 <= c < j ==> newLine[c].asReal.Some?
        invariant forall c :: 0 <= c < j ==> theta[i, c] == newLine[c].asReal.value
        invariant forall r, c :: 0 <= r < i && 0 <= c < n ==> RowAt(lines, pos, r, n).value[c] == theta[r, c]
      {
        if j >= |newLine| {
          ReadRowError(newLine, n);
          assert RowAt(lines, pos, i, n) == Failure(ShortLine);
          ReadRowsFailurePropagates(lines, pos, m, n, i);
          return theta, Some(ShortLine);
        }
        if newLine[j].asReal.None? {
          ReadRowError(newLine, n);
          assert RowAt(lines, pos, i, n) == Failure(NotANumber);
          ReadRowsFailurePropagates(lines, pos, m, n, i);
          return theta, Some(NotANumber);
        }
        theta[i, j] := newLine[j].asReal.value;
      }
      assert RowAt(lines, pos, i, n).Success?;
    }
    ReadRowsAll(lines, pos, m, n);
    var rows := ReadRows(lines, pos, m, n).value;
    forall r | 0 <= r < m ensures ToMatrix(theta).cells[r] == rows[r] {
      assert RowAt(lines, pos, r, n) == Success(rows[r]);
    }
    fail := None;
  }
}

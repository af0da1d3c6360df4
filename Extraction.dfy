/**
 * Spectra: the detection window cut out of a spectrogram around one
 * instant (Spectra.format): pad, extend the time base, select rows and
 * columns, reconcile the column count, crop, clip and binarise.
 */
module Extraction {
  import opened Wrappers
  import opened Matrices
  import opened Masks
  import opened Wideband

  /** The clip range of the cropped power, in dB. */
  const MinPower: real := -40.0
  const MaxPower: real := 0.0

  /** The settings a new Spectra starts with: percentile, band in kHz, seconds before and after. */
  const DefaultThreshold: real := 85.0
  const DefaultBand: (real, real) := (3.0, 4.5)
  const DefaultBefore: real := 0.5
  const DefaultAfter: real := 0.75

  /** `step` is read from timeBase[10] - timeBase[9]. */
  const StepIndex: nat := 10

  function Zeros(n: nat): (z: seq<real>)
    ensures |z| == n && forall j :: 0 <= j < n ==> z[j] == 0.0
  {
    seq(n, j => 0.0)
  }

  /** One row of the padded image. */
  function PadRow(row: seq<real>): (q: seq<real>)
    ensures |q| == 3 * |row|
    ensures forall j :: 0 <= j < 3 * |row| ==> q[j] == if |row| <= j < 2 * |row| then row[j - |row|] else 0.0
  {
    Zeros(|row|) + row + Zeros(|row|)
  }

  /**
   * The power matrix with a zero block of its own shape on either side:
   * the original columns sit in the middle third.
   */
  function PadColumns(p: Matrix): (q: Matrix)
    requires p.Valid()
    ensures q.Valid() && q.rows == p.rows && q.cols == 3 * p.cols
    ensures forall i, j :: 0 <= i < p.rows && 0 <= j < 3 * p.cols ==>
      q.cells[i][j] == if p.cols <= j < 2 * p.cols then p.cells[i][j - p.cols] else 0.0
  {
    Matrix(p.rows, 3 * p.cols, seq(p.rows, i requires 0 <= i < p.rows => PadRow(p.cells[i])))
  }

  /**
   * The time base matching PadColumns: a copy shifted back by the last
   * time stamp, the original, and a copy shifted forward by it.
   */
  function ExtendTimeBase(t: seq<real>): (x: seq<real>)
    requires |t| > 0
    ensures |x| == 3 * |t|
    ensures forall j :: 0 <= j < 3 * |t| ==>
      x[j] == if j < |t| then t[j] - t[|t| - 1]
              else if j < 2 * |t| then t[j - |t|]
              else t[j - 2 * |t|] + t[|t| - 1]
  {
    var last := t[|t| - 1];
    seq(|t|, j requires 0 <= j < |t| => t[j] - last) + t + seq(|t|, j requires 0 <= j < |t| => t[j] + last)
  }

  /**
   * When the time base increases from a positive first stamp (as the one
   * widebandFFT builds does for a positive Fs), the extended base still
   * increases across the joins, so every padded column has its own instant.
   */
  lemma ExtendedTimeIncreases(t: seq<real>)
    requires |t| > 0 && t[0] > 0.0
    requires forall i, j :: 0 <= i < j < |t| ==> t[i] < t[j]
    ensures forall i, j :: 0 <= i < j < 3 * |t| ==> ExtendTimeBase(t)[i] < ExtendTimeBase(t)[j]
  {
    var x, n := ExtendTimeBase(t), |t|;
    forall i, j | 0 <= i < j < 3 * n ensures x[i] < x[j] {
      if j < n {
        assert x[i] == t[i] - t[n - 1] && x[j] == t[j] - t[n - 1];
      } else if j < 2 * n {
        assert x[j] == t[j - n];
        if i < n {
          assert x[i] == t[i] - t[n - 1] && t[i] <= t[n - 1];
          assert t[0] <= t[j - n];
        } else {
          assert x[i] == t[i - n];
        }
      } else {
        assert x[j] == t[j - 2 * n] + t[n - 1] && t[0] <= t[j - 2 * n];
        if i < n {
          assert x[i] == t[i] - t[n - 1] && t[i] <= t[n - 1];
        } else if i < 2 * n {
          assert x[i] == t[i - n] && t[i - n] <= t[n - 1];
        } else {
          assert x[i] == t[i - 2 * n] + t[n - 1];
        }
      }
    }
  }

  /** Frequency rows strictly inside the band, given in kHz. */
  function FreqMask(f: seq<real>, band: (real, real)): (m: seq<bool>)
    ensures |m| == |f|
    ensures forall i :: 0 <= i < |f| ==> (m[i] <==> 1000.0 * band.0 < f[i] < 1000.0 * band.1)
  {
    seq(|f|, i requires 0 <= i < |f| => 1000.0 * band.0 < f[i] && f[i] < 1000.0 * band.1)
  }

  /** Time columns strictly between t - before and t + after. */
  function TimeMask(x: seq<real>, t: real, before: real, after: real): (m: seq<bool>)
    ensures |m| == |x|
    ensures forall i :: 0 <= i < |x| ==> (m[i] <==> t - before < x[i] < t + after)
  {
    seq(|x|, i requires 0 <= i < |x| => t - before < x[i] && x[i] < t + after)
  }

  /** The column mask of format, after reconciliation against the expected count. */
  function ColumnMask(timeBase: seq<real>, t: real, before: real, after: real): (m: seq<bool>)
    requires |timeBase| > StepIndex
    ensures |m| == 3 * |timeBase|
  {
    var step := timeBase[StepIndex] - timeBase[StepIndex - 1];
    Reconcile(TimeMask(ExtendTimeBase(timeBase), t, before, after), ExpectedColumns(before + after, step))
  }

  lemma ColumnMaskSteps(timeBase: seq<real>, t: real, before: real, after: real)
    requires |timeBase| > StepIndex
    ensures ColumnMask(timeBase, t, before, after)
      == Reconcile(TimeMask(ExtendTimeBase(timeBase), t, before, after),
                   ExpectedColumns(before + after, timeBase[StepIndex] - timeBase[StepIndex - 1]))
  {
  }

  function Clip(v: real): (c: real)
    ensures MinPower <= c <= MaxPower
    ensures MinPower <= v <= MaxPower ==> c == v
  {
    if v < MinPower then MinPower else if v > MaxPower then MaxPower else v
  }

  function ClipRow(row: seq<real>): (c: seq<real>)
    ensures |c| == |row| && forall j :: 0 <= j < |row| ==> c[j] == Clip(row[j])
  {
    seq(|row|, j requires 0 <= j < |row| => Clip(row[j]))
  }

  function ClipAll(m: Matrix): (c: Matrix)
    requires m.Valid()
    ensures c.Valid() && c.rows == m.rows && c.cols == m.cols
    ensures forall i, j :: 0 <= i < m.rows && 0 <= j < m.cols ==> c.cells[i][j] == Clip(m.cells[i][j])
  {
    Matrix(m.rows, m.cols, seq(m.rows, i requires 0 <= i < m.rows => ClipRow(m.cells[i])))
  }

  function BinarizeRow(row: seq<real>, level: real): (b: seq<real>)
    ensures |b| == |row|
    ensures forall j :: 0 <= j < |row| ==> (b[j] == 1.0 || b[j] == 0.0) && (b[j] == 1.0 <==> row[j] > level)
  {
    seq(|row|, j requires 0 <= j < |row| => if row[j] > level then 1.0 else 0.0)
  }

  /** `(m > level).astype(float)`. */
  function Binarize(m: Matrix, level: real): (b: Matrix)
    requires m.Valid()
    ensures b.Valid() && b.rows == m.rows && b.cols == m.cols
    ensures forall i, j :: 0 <= i < m.rows && 0 <= j < m.cols ==>
      (b.cells[i][j] == 1.0 || b.cells[i][j] == 0.0) && (b.cells[i][j] == 1.0 <==> m.cells[i][j] > level)
  {
    Matrix(m.rows, m.cols, seq(m.rows, i requires 0 <= i < m.rows => BinarizeRow(m.cells[i], level)))
  }

  predicate Increasing(x: seq<real>)
  {
    forall i, j :: 0 <= i < j < |x| ==> x[i] < x[j]
  }

  /** The first index whose stamp exceeds `v`, or |x| when none does. */
  function FirstAbove(x: seq<real>, v: real): (s: nat)
    ensures s <= |x|
    ensures forall i :: 0 <= i < s ==> x[i] <= v
    ensures s < |x| ==> x[s] > v
  {
    if |x| == 0 || x[0] > v then 0 else 1 + FirstAbove(x[1..], v)
  }

  /** The first index whose stamp reaches `v`, or |x| when none does. */
  function FirstReaching(x: seq<real>, v: real): (e: nat)
    ensures e <= |x|
    ensures forall i :: 0 <= i < e ==> x[i] < v
    ensures e < |x| ==> x[e] >= v
  {
    if |x| == 0 || x[0] >= v then 0 else 1 + FirstReaching(x[1..], v)
  }

  /** Over an increasing base, the stamps above `v` are exactly those from FirstAbove on. */
  lemma AboveFrom(x: seq<real>, v: real)
    requires Increasing(x)
    ensures forall i :: 0 <= i < |x| ==> (x[i] > v <==> FirstAbove(x, v) <= i)
  {
    var s := FirstAbove(x, v);
    forall i | s < i < |x| ensures x[i] > v {
      assert x[s] < x[i];
    }
  }

  /** Over an increasing base, the stamps reaching `v` are exactly those from FirstReaching on. */
  lemma ReachingFrom(x: seq<real>, v: real)
    requires Increasing(x)
    ensures forall i :: 0 <= i < |x| ==> (x[i] >= v <==> FirstReaching(x, v) <= i)
  {
    var e := FirstReaching(x, v);
    forall i | e < i < |x| ensures x[i] >= v {
      assert x[e] < x[i];
    }
  }

  /** Over an increasing time base the window selects one contiguous run of columns. */
  lemma TimeMaskIsRun(x: seq<real>, t: real, before: real, after: real)
    requires Increasing(x)
    ensures TimeMask(x, t, before, after) == Run(|x|, FirstAbove(x, t - before), FirstReaching(x, t + after))
  {
    AboveFrom(x, t - before);
    ReachingFrom(x, t + after);
    var m, r := TimeMask(x, t, before, after), Run(|x|, FirstAbove(x, t - before), FirstReaching(x, t + after));
    assert forall i :: 0 <= i < |x| ==> m[i] == r[i];
  }

  /**
   * The column mask format builds: the window's run of columns over the
   * extended base, moved one step toward the expected count. It applies
   * when the extended base starts no later than the window and the window
   * selects at least one column.
   */
  lemma ColumnMaskReconciles(tb: seq<real>, t: real, before: real, after: real)
    requires |tb| > StepIndex && tb[0] > 0.0 && Increasing(tb)
    requires 0 < FirstAbove(ExtendTimeBase(tb), t - before) < FirstReaching(ExtendTimeBase(tb), t + after)
    ensures var raw := FirstReaching(ExtendTimeBase(tb), t + after) - FirstAbove(ExtendTimeBase(tb), t - before);
            var expected := ExpectedColumns(before + after, tb[StepIndex] - tb[StepIndex - 1]);
            && Count(TimeMask(ExtendTimeBase(tb), t, before, after)) == raw
            && expected.Finite?
            && Count(ColumnMask(tb, t, before, after))
               == if raw > expected.n then raw - 1 else if raw < expected.n then raw + 1 else raw
  {
    var x := ExtendTimeBase(tb);
    var s, e := FirstAbove(x, t - before), FirstReaching(x, t + after);
    ExtendedTimeIncreases(tb);
    TimeMaskIsRun(x, t, before, after);
    CountRun(|x|, s, e);
    ReconcileRun(|x|, s, e, ExpectedColumns(before + after, tb[StepIndex] - tb[StepIndex - 1]));
  }

  lemma GridDiff(i: int, j: int, c: int, h: real)
    ensures (i + c) as real * h - (j + c) as real * h == (i - j) as real * h
  {
  }

  lemma BelowQuotient(k: real, d: real, h: real)
    requires h > 0.0 && k * h < d
    ensures k < d / h
  {
  }

  lemma AboveQuotient(k: real, d: real, h: real)
    requires h > 0.0 && d <= k * h
    ensures d / h <= k
  {
  }

  lemma GridSum(i: int, j: int, h: real)
    ensures i as real * h + j as real * h == (i + j) as real * h
  {
  }

  /** The extended base of a uniform time base (k + 1) h is the uniform grid (j + 1 - n) h. */
  lemma ExtendedGrid(tb: seq<real>, h: real)
    requires |tb| > 0
    requires forall k :: 0 <= k < |tb| ==> tb[k] == (k + 1) as real * h
    ensures forall j :: 0 <= j < 3 * |tb| ==> ExtendTimeBase(tb)[j] == (j + 1 - |tb|) as real * h
  {
    var n, x := |tb|, ExtendTimeBase(tb);
    assert tb[n - 1] == n as real * h;
    forall j | 0 <= j < 3 * n ensures x[j] == (j + 1 - n) as real * h {
      if j < n {
        assert x[j] == tb[j] - tb[n - 1] && tb[j] == (j + 1) as real * h;
        GridSum(j + 1 - n, n, h);
      } else if j < 2 * n {
        assert x[j] == tb[j - n];
      } else {
        assert x[j] == tb[j - 2 * n] + tb[n - 1] && tb[j - 2 * n] == (j - 2 * n + 1) as real * h;
        GridSum(j - 2 * n + 1, n, h);
      }
    }
  }

  lemma UniformIncreasing(tb: seq<real>, h: real)
    requires h > 0.0
    requires forall k :: 0 <= k < |tb| ==> tb[k] == (k + 1) as real * h
    ensures Increasing(tb)
  {
    forall i, j | 0 <= i < j < |tb| ensures tb[i] < tb[j] {
      GridDiff(j, i, 1, h);
    }
  }

  /** Cells e - 1 and s of a uniform grid inside (lo, hi) are fewer than (hi - lo) / h steps apart. */
  lemma GridUpper(x: seq<real>, c: int, h: real, lo: real, hi: real, s: int, e: int)
    requires h > 0.0 && 0 <= s < |x| && 0 < e <= |x|
    requires forall j :: 0 <= j < |x| ==> x[j] == (j + c) as real * h
    requires x[e - 1] < hi && x[s] > lo
    ensures (e - 1 - s) as real < (hi - lo) / h
  {
    assert x[e - 1] == (e - 1 + c) as real * h && x[s] == (s + c) as real * h;
    GridDiff(e - 1, s, c, h);
    BelowQuotient((e - 1 - s) as real, hi - lo, h);
  }

  /** Cells e and s - 1 of a uniform grid outside (lo, hi) are at least (hi - lo) / h steps apart. */
  lemma GridLower(x: seq<real>, c: int, h: real, lo: real, hi: real, s: int, e: int)
    requires h > 0.0 && 0 < s <= |x| && 0 <= e < |x|
    requires forall j :: 0 <= j < |x| ==> x[j] == (j + c) as real * h
    requires x[e] >= hi && x[s - 1] <= lo
    ensures (hi - lo) / h <= (e - s + 1) as real
  {
    assert x[e] == (e + c) as real * h && x[s - 1] == (s - 1 + c) as real * h;
    GridDiff(e, s - 1, c, h);
    AboveQuotient((e - s + 1) as real, hi - lo, h);
  }

  /**
   * On a uniform grid (j + c) h, a window (lo, hi) inside the grid selects
   * a run whose length is within one of (hi - lo) / h.
   */
  lemma GridRunLength(x: seq<real>, c: int, h: real, lo: real, hi: real)
    requires h > 0.0 && |x| > 0 && lo < hi
    requires forall j :: 0 <= j < |x| ==> x[j] == (j + c) as real * h
    requires x[0] <= lo && hi <= x[|x| - 1]
    ensures 0 < FirstAbove(x, lo) && FirstReaching(x, hi) < |x|
    ensures (FirstReaching(x, hi) - 1 - FirstAbove(x, lo)) as real < (hi - lo) / h
    ensures (hi - lo) / h <= (FirstReaching(x, hi) - FirstAbove(x, lo) + 1) as real
  {
    var s, e := FirstAbove(x, lo), FirstReaching(x, hi);
    assert 0 < s < |x| && 0 < e < |x|;
    GridUpper(x, c, h, lo, hi, s, e);
    GridLower(x, c, h, lo, hi, s, e);
  }

  lemma SpanPositive(d: real, h: real)
    requires h > 0.0 && d / h >= 2.0
    ensures d > 0.0
  {
    if d <= 0.0 {
      AboveQuotient(0.0, d, h);
    }
  }

  /** An integer within one step of a quotient is within one of its floor. */
  lemma NearFloor(k: int, q: real)
    requires (k - 1) as real < q <= (k + 1) as real
    ensures q.Floor - 1 <= k <= q.Floor + 1
  {
  }

  /** A uniform time base (k + 1) h increases from a positive first stamp, in steps of h. */
  lemma UniformSteps(tb: seq<real>, h: real)
    requires |tb| > StepIndex && h > 0.0
    requires forall k :: 0 <= k < |tb| ==> tb[k] == (k + 1) as real * h
    ensures tb[0] > 0.0 && Increasing(tb) && tb[StepIndex] - tb[StepIndex - 1] == h
  {
    GridDiff(StepIndex, StepIndex - 1, 1, h);
    UniformIncreasing(tb, h);
  }

  /** A window inside the extended base of a uniform time base selects a run within one of (hi - lo) / h columns long. */
  lemma UniformRunBounds(tb: seq<real>, h: real, lo: real, hi: real)
    requires |tb| > 0 && h > 0.0 && lo < hi
    requires forall k :: 0 <= k < |tb| ==> tb[k] == (k + 1) as real * h
    requires ExtendTimeBase(tb)[0] <= lo && hi <= ExtendTimeBase(tb)[3 * |tb| - 1]
    ensures var s, e := FirstAbove(ExtendTimeBase(tb), lo), FirstReaching(ExtendTimeBase(tb), hi);
            0 < s && (e - 1 - s) as real < (hi - lo) / h <= (e - s + 1) as real
  {
    var x := ExtendTimeBase(tb);
    ExtendedGrid(tb, h);
    GridRunLength(x, 1 - |tb|, h, lo, hi);
  }

  /**
   * On a uniform time base (k + 1) h, as widebandFFT builds, a window that
   * lies inside the extended base and spans at least two steps gets exactly
   * floor((before + after) / step) columns after reconciliation.
   */
  lemma UniformWindowWidth(tb: seq<real>, h: real, t: real, before: real, after: real)
    requires |tb| > StepIndex && h > 0.0
    requires forall k :: 0 <= k < |tb| ==> tb[k] == (k + 1) as real * h
    requires ExtendTimeBase(tb)[0] <= t - before && t + after <= ExtendTimeBase(tb)[3 * |tb| - 1]
    requires (before + after) / h >= 2.0
    ensures tb[StepIndex] - tb[StepIndex - 1] == h
    ensures ExpectedColumns(before + after, h).Finite?
    ensures Count(ColumnMask(tb, t, before, after)) == ExpectedColumns(before + after, h).n
  {
    SpanPositive(before + after, h);
    var lo, hi := t - before, t + after;
    assert hi - lo == before + after;
    UniformSteps(tb, h);
    UniformRunBounds(tb, h, lo, hi);
    var s, e := FirstAbove(ExtendTimeBase(tb), lo), FirstReaching(ExtendTimeBase(tb), hi);
    NearFloor(e - s, (before + after) / h);
    ColumnMaskReconciles(tb, t, before, after);
  }

  lemma StampOnGrid(v: real, k: nat, fs: real)
    requires fs > 0.0 && v * fs == ((k + 1) * Hop) as real
    ensures v == (k + 1) as real * (Hop as real / fs)
  {
  }

  /** Stamps whose product with Fs is (k + 1) Nw/2 form the uniform grid of step Nw/2 / Fs. */
  lemma StampsOnGrid(tb: seq<real>, fs: real)
    requires fs > 0.0
    requires forall k :: 0 <= k < |tb| ==> tb[k] * fs == ((k + 1) * Hop) as real
    ensures forall k :: 0 <= k < |tb| ==> tb[k] == (k + 1) as real * (Hop as real / fs)
  {
    forall k | 0 <= k < |tb| ensures tb[k] == (k + 1) as real * (Hop as real / fs) {
      StampOnGrid(tb[k], k, fs);
    }
  }

  lemma TwoSteps(d: real, fs: real)
    requires fs > 0.0 && d * fs >= (2 * Hop) as real
    ensures d / (Hop as real / fs) >= 2.0
  {
    assert d / (Hop as real / fs) == d * fs / Hop as real;
  }

  /**
   * A window cut from time stamps (k + 1) Nw/2 / Fs, as widebandFFT builds
   * them with a positive Fs: when it lies inside the extended time base and
   * spans at least two frame steps, its time mask keeps exactly
   * floor((before + after) / step) columns, the count format expects.
   */
  lemma StampedWindowWidth(tb: seq<real>, fs: real, t: real, before: real, after: real)
    requires fs > 0.0 && |tb| > StepIndex
    requires forall k :: 0 <= k < |tb| ==> tb[k] * fs == ((k + 1) * Hop) as real
    requires ExtendTimeBase(tb)[0] <= t - before && t + after <= ExtendTimeBase(tb)[3 * |tb| - 1]
    requires (before + after) * fs >= (2 * Hop) as real
    ensures var expected := ExpectedColumns(before + after, tb[StepIndex] - tb[StepIndex - 1]);
            expected.Finite? && Count(ColumnMask(tb, t, before, after)) == expected.n
  {
    StampsOnGrid(tb, fs);
    TwoSteps(before + after, fs);
    UniformWindowWidth(tb, Hop as real / fs, t, before, after);
  }

  /** The same for the spectrogram widebandFFT computes. */
  lemma FormatWindowWidth(y: seq<real>, fs: real, frameDb: seq<real> -> seq<real>, t: real, before: real, after: real)
    requires PreservesLength(frameDb) && fs > 0.0 && FrameCount(|y|) > StepIndex
    requires var tb := Transform(y, fs, frameDb).value.timeBase;
             ExtendTimeBase(tb)[0] <= t - before && t + after <= ExtendTimeBase(tb)[3 * |tb| - 1]
    requires (before + after) * fs >= (2 * Hop) as real
    ensures var tb := Transform(y, fs, frameDb).value.timeBase;
            var expected := ExpectedColumns(before + after, tb[StepIndex] - tb[StepIndex - 1]);
            expected.Finite? && Count(ColumnMask(tb, t, before, after)) == expected.n
  {
    var r := Transform(y, fs, frameDb);
    var tb := r.value.timeBase;
    assert |tb| == FrameCount(|y|) > StepIndex;
    assert forall k :: 0 <= k < |tb| ==> tb[k] * fs == ((k + 1) * Hop) as real;
    StampedWindowWidth(tb, fs, t, before, after);
  }

  /** The selected rows and reconciled columns of the padded power, before clipping. */
  function CropOf(s: Spectrogram, t: real, band: (real, real), before: real, after: real): (c: Matrix)
    requires s.Valid() && |s.timeBase| > StepIndex
    ensures c.Valid()
    ensures c.rows == Count(FreqMask(s.freqBase, band)) && c.cols == Count(ColumnMask(s.timeBase, t, before, after))
  {
    SelectCols(SelectRows(PadColumns(s.power), FreqMask(s.freqBase, band)), ColumnMask(s.timeBase, t, before, after))
  }

  /**
   * Which power cell each crop cell holds: a padded cell in a selected row
   * and a selected column lands at the count of selected rows above it and
   * selected columns left of it.
   */
  lemma CropCell(s: Spectrogram, t: real, band: (real, real), before: real, after: real, i: nat, j: nat)
    requires s.Valid() && |s.timeBase| > StepIndex
    requires i < |s.freqBase| && j < 3 * |s.timeBase|
    requires FreqMask(s.freqBase, band)[i] && ColumnMask(s.timeBase, t, before, after)[j]
    ensures Count(FreqMask(s.freqBase, band)[..i]) < Count(FreqMask(s.freqBase, band))
    ensures Count(ColumnMask(s.timeBase, t, before, after)[..j]) < Count(ColumnMask(s.timeBase, t, before, after))
    ensures CropOf(s, t, band, before, after).cells[Count(FreqMask(s.freqBase, band)[..i])]
                                                  [Count(ColumnMask(s.timeBase, t, before, after)[..j])]
            == PadColumns(s.power).cells[i][j]
  {
    var rowMask, colMask := FreqMask(s.freqBase, band), ColumnMask(s.timeBase, t, before, after);
    var padded := PadColumns(s.power);
    var rows := SelectRows(padded, rowMask);
    SelectAt(padded.cells, rowMask, i);
    var ri := Count(rowMask[..i]);
    assert rows.cells[ri] == padded.cells[i];
    SelectAt(padded.cells[i], colMask, j);
  }

  /** What format leaves behind: the clipped crop, its binary image and the image height. */
  datatype Window = Window(power: Matrix, image: Matrix, width: nat)

  /**
   * `image.shape` raises AttributeError while the wideband's power is still
   * the constructor's empty list; timeBase[10] raises IndexError on a
   * spectrogram of fewer than eleven frames; numpy.percentile raises on a
   * crop with no cells (no frequency in the band, or no column in the window).
   */
  datatype FormatError = NoSpectrogram | TooFewFrames | EmptyCrop

  /**
   * `percentile(values, q)` stands for numpy.percentile over the clipped
   * crop, flattened row by row.
   */
  function Extract(spectrum: Option<Spectrogram>, t: real, threshold: real, band: (real, real), before: real, after: real,
                   percentile: (seq<real>, real) -> real): (r: Result<Window, FormatError>)
    requires ValidSpectrum(spectrum)
    ensures r == Failure(NoSpectrogram) <==> spectrum.None?
    ensures r == Failure(TooFewFrames) <==> spectrum.Some? && |spectrum.value.timeBase| <= StepIndex
    ensures r == Failure(EmptyCrop) <==>
      && spectrum.Some? && |spectrum.value.timeBase| > StepIndex
      && (Count(FreqMask(spectrum.value.freqBase, band)) == 0
          || Count(ColumnMask(spectrum.value.timeBase, t, before, after)) == 0)
    ensures r.Success? ==>
      var s, w := spectrum.value, r.value;
      && w.power.Valid() && w.image.Valid()
      && w.power.rows == Count(FreqMask(s.freqBase, band)) == w.width
      && w.power.cols == Count(ColumnMask(s.timeBase, t, before, after))
      && w.image.rows == w.power.rows && w.image.cols == w.power.cols
      && (forall i, j :: 0 <= i < w.power.rows && 0 <= j < w.power.cols ==>
            MinPower <= w.power.cells[i][j] <= MaxPower)
      && (forall i, j :: 0 <= i < w.image.rows && 0 <= j < w.image.cols ==>
            w.image.cells[i][j] == 1.0 || w.image.cells[i][j] == 0.0)
  {
    if spectrum.None? then Failure(NoSpectrogram)
    else if |spectrum.value.timeBase| <= StepIndex then Failure(TooFewFrames)
    else
      var s := spectrum.value;
      var crop := ClipAll(CropOf(s, t, band, before, after));
      if crop.rows == 0 || crop.cols == 0 then Failure(EmptyCrop)
      else
      var level := percentile(FlattenRows(crop, crop.rows), threshold);
      Success(Window(crop, Binarize(crop, level), crop.rows))
  }

  /** A fresh array holding `m` (the copy numpy's boolean-mask indexing makes). */
  method NewArray(m: Matrix) returns (a: array2<real>)
    requires m.Valid()
    ensures fresh(a) && ToMatrix(a) == m
  {
    a := new real[m.rows, m.cols]((i: nat, j: nat) requires i < m.rows && j < m.cols => m.cells[i][j]);
    forall i | 0 <= i < m.rows ensures ToMatrix(a).cells[i] == m.cells[i] {
      assert forall j :: 0 <= j < m.cols ==> ToMatrix(a).cells[i][j] == m.cells[i][j];
    }
  }

  /**
   * Pads the power, extends the time base, builds both masks, reconciles
   * the time mask and copies out the selected cells.
   */
  method Crop(s: Spectrogram, t: real, band: (real, real), before: real, after: real) returns (crop: array2<real>)
    requires s.Valid() && |s.timeBase| > StepIndex
    ensures fresh(crop) && ToMatrix(crop) == CropOf(s, t, band, before, after)
  {
    var image := PadColumns(s.power);
    var step := s.timeBase[StepIndex] - s.timeBase[StepIndex - 1];
    var timeBase := ExtendTimeBase(s.timeBase);
    var expectedTime := ExpectedColumns(before + after, step);
    var freqCut := FreqMask(s.freqBase, band);
    var timeCut := TimeMask(timeBase, t, before, after);
    timeCut := Reconcile(timeCut, expectedTime);
    ColumnMaskSteps(s.timeBase, t, before, after);
    crop := NewArray(SelectCols(SelectRows(image, freqCut), timeCut));
  }

  /** `a[a < -40] = -40; a[a > 0] = 0`, in place. */
  method ClipInPlace(a: array2<real>)
    modifies a
    ensures ToMatrix(a) == ClipAll(old(ToMatrix(a)))
  {
    ghost var before := ToMatrix(a);
    forall i, j | 0 <= i < a.Length0 && 0 <= j < a.Length1 && a[i, j] < MinPower {
      a[i, j] := MinPower;
    }
    forall i, j | 0 <= i < a.Length0 && 0 <= j < a.Length1 && a[i, j] > MaxPower {
      a[i, j] := MaxPower;
    }
    ghost var clipped := ClipAll(before);
    forall i | 0 <= i < a.Length0 ensures ToMatrix(a).cells[i] == clipped.cells[i] {
      assert forall j :: 0 <= j < a.Length1 ==> ToMatrix(a).cells[i][j] == clipped.cells[i][j];
    }
  }

  /** `(a > level).astype(float)`, a new array. */
  method Threshold(a: array2<real>, level: real) returns (b: array2<real>)
    ensures fresh(b) && ToMatrix(b) == Binarize(ToMatrix(a), level)
  {
    b := new real[a.Length0, a.Length1]((i: nat, j: nat) reads a
      requires i < a.Length0 && j < a.Length1 => if a[i, j] > level then 1.0 else 0.0);
    ghost var bin := Binarize(ToMatrix(a), level);
    forall i | 0 <= i < a.Length0 ensures ToMatrix(b).cells[i] == bin.cells[i] {
      assert forall j :: 0 <= j < a.Length1 ==> ToMatrix(b).cells[i][j] == bin.cells[i][j];
    }
  }

  /**
   * The work format does on arrays: the crop is copied out, clipped in
   * place, thresholded at the percentile of its clipped values, and the
   * binary image is a new array. `clipped` is the clipped crop, which
   * format stores as its power before the percentile can raise.
   */
  method CutWindow(s: Spectrogram, t: real, threshold: real, band: (real, real), before: real, after: real,
                   percentile: (seq<real>, real) -> real) returns (clipped: Matrix, r: Result<Window, FormatError>)
    requires s.Valid() && |s.timeBase| > StepIndex
    ensures clipped == ClipAll(CropOf(s, t, band, before, after))
    ensures r == Extract(Some(s), t, threshold, band, before, after, percentile)
  {
    var crop := Crop(s, t, band, before, after);
    ClipInPlace(crop);
    clipped := ToMatrix(crop);
    if crop.Length0 == 0 || crop.Length1 == 0 {
      return clipped, Failure(EmptyCrop);
    }
    var level := percentile(FlattenRows(clipped, crop.Length0), threshold);
    var binary := Threshold(crop, level);
    r := Success(Window(clipped, ToMatrix(binary), crop.Length0));
  }

  /** A detection window ("Spectra") and the settings it is cut with. */
  class Spectra {
    var time: real
    var date: seq<int>
    var threshold: real
    var freqBand: (real, real)
    var startBuffer: real
    var endBuffer: real
    var power: Matrix
    var image: Matrix
    var width: nat

    /** Default settings; `power` and `image` start out empty. */
    constructor ()
      ensures time == 0.0 && date == [] && threshold == DefaultThreshold && freqBand == DefaultBand
      ensures startBuffer == DefaultBefore && endBuffer == DefaultAfter
      ensures power == image == Matrix(0, 0, []) && width == 0
    {
      time, date, threshold, freqBand := 0.0, [], DefaultThreshold, DefaultBand;
      startBuffer, endBuffer := DefaultBefore, DefaultAfter;
      power := Matrix(0, 0, []);
      image := power;
      width := 0;
    }

    /**
     * Cuts the window around `t` out of the wideband spectrogram. The time
     * and date are recorded first, so they change even when the cut fails;
     * an empty crop is stored as the power before the percentile raises;
     * the settings are left as they are.
     */
    method Format(wideband: Wideband.WidebandVLF, t: real, percentile: (seq<real>, real) -> real)
      returns (outcome: Outcome<FormatError>)
      requires wideband.Valid()
      modifies this
      ensures time == t && date == wideband.date
      ensures threshold == old(threshold) && freqBand == old(freqBand)
      ensures startBuffer == old(startBuffer) && endBuffer == old(endBuffer)
      ensures match Extract(wideband.Spectrum(), t, threshold, freqBand, startBuffer, endBuffer, percentile)
        case Success(w) => outcome == Pass && power == w.power && image == w.image && width == w.width
        case Failure(e) =>
          && outcome == Fail(e) && image == old(image) && width == old(width)
          && power == if e == EmptyCrop
                      then ClipAll(CropOf(wideband.Spectrum().value, t, freqBand, startBuffer, endBuffer))
                      else old(power)
    {
      var s := wideband.Spectrum();
      time, date := t, wideband.date;
      if s.None? {
        return Fail(NoSpectrogram);
      }
      if |s.value.timeBase| <= StepIndex {
        return Fail(TooFewFrames);
      }
      var clipped, r := CutWindow(s.value, t, threshold, freqBand, startBuffer, endBuffer, percentile);
      power := clipped;
      if r.Failure? {
        return Fail(r.error);
      }
      image, width := r.value.image, r.value.width;
      return Pass;
    }
  }
}

/**
 * WidebandVLF: a capture's samples and time base (importFile) and its
 * 50%-overlap short-time power spectrogram (widebandFFT).
 */
module Wideband {
  import opened Wrappers
  import opened Matrices

  /** Nw, samples per analysis frame (2**10). */
  const FrameLength: nat := 1024
  /** Nw/2: the hop between overlapping frames and the number of one-sided frequency bins. */
  const Hop: nat := 512
  /** Full scale of a signed 16-bit sample. */
  const FullScale: real := 32768.0

  /** A little-endian int16 sample, as read from the capture. */
  type Int16 = x: int | -32768 <= x < 32768

  /** Samples in soundcard units: each int16 divided by 32768. */
  function Normalize(y: seq<Int16>): (e: seq<real>)
    ensures |e| == |y|
    ensures forall i :: 0 <= i < |y| ==> e[i] * FullScale == y[i] as real
    ensures forall i :: 0 <= i < |y| ==> -1.0 <= e[i] <= 32767.0 / 32768.0
  {
    seq(|y|, i requires 0 <= i < |y| => y[i] as real / FullScale)
  }

  lemma DivMono(a: real, b: real, fs: real)
    requires a < b && fs > 0.0
    ensures a / fs < b / fs
  {
    assert b / fs - a / fs == (b - a) / fs;
  }

  /** The capture's time base: sample i is stamped (i + offset) / Fs. */
  function TimeAxis(n: nat, offset: real, fs: real): (t: seq<real>)
    requires fs != 0.0
    ensures |t| == n
    ensures forall i :: 0 <= i < n ==> t[i] * fs == i as real + offset
    ensures fs > 0.0 ==> forall i, j :: 0 <= i < j < n ==> t[i] < t[j]
  {
    var t := seq(n, i requires 0 <= i < n => (i as real + offset) / fs);
    assert fs > 0.0 ==> forall i, j :: 0 <= i < j < n ==> t[i] < t[j] by {
      if fs > 0.0 {
        forall i, j | 0 <= i < j < n ensures t[i] < t[j] {
          DivMono(i as real + offset, j as real + offset, fs);
        }
      }
    }
    t
  }

  /** nwinf: frames that tile the capture without overlap. */
  function FullFrames(ny: nat): nat
  {
    ny / FrameLength
  }

  /** nwin = nwinf + (nwinf - 1): all 50%-overlapping frames; negative when ny < Nw. */
  function FrameCount(ny: nat): (nwin: int)
    ensures nwin < 0 <==> ny < FrameLength
    ensures nwin >= 0 ==> nwin * Hop + Hop == FullFrames(ny) * FrameLength
  {
    2 * FullFrames(ny) - 1
  }

  /** The samples analysed by column `c` of the frame matrix. */
  function Frame(y: seq<real>, c: nat): (f: seq<real>)
    requires c < FrameCount(|y|)
    ensures |f| == FrameLength
    ensures forall r :: 0 <= r < FrameLength ==> f[r] == y[c * Hop + r]
  {
    y[c * Hop .. c * Hop + FrameLength]
  }

  /** Adjacent frames share half their samples: the 50% overlap. */
  lemma FramesOverlap(y: seq<real>, c: nat)
    requires c + 1 < FrameCount(|y|)
    ensures Frame(y, c + 1)[..Hop] == Frame(y, c)[Hop..]
  {
  }

  /**
   * `v.reshape(rows, cols, order='F')`: consecutive runs of `rows`
   * entries become consecutive columns.
   */
  function ReshapeColumns(v: seq<real>, cols: nat): (m: Matrix)
    requires |v| == cols * FrameLength
    ensures m.Valid() && m.rows == FrameLength && m.cols == cols
    ensures forall r, k :: 0 <= r < FrameLength && 0 <= k < cols ==> m.cells[r][k] == v[k * FrameLength + r]
  {
    Matrix(FrameLength, cols, seq(FrameLength, r requires 0 <= r < FrameLength => ReshapeRow(v, cols, r)))
  }

  /** Row `r` of the column-major reshape: entry `r` of every run. */
  function ReshapeRow(v: seq<real>, cols: nat, r: nat): (row: seq<real>)
    requires |v| == cols * FrameLength && r < FrameLength
    ensures |row| == cols && forall k :: 0 <= k < cols ==> row[k] == v[k * FrameLength + r]
  {
    seq(cols, k requires 0 <= k < cols => v[k * FrameLength + r])
  }

  /** A time-frequency power spectrogram: one row per frequency, one column per frame. */
  datatype Spectrogram = Spectrogram(timeBase: seq<real>, freqBase: seq<real>, power: Matrix)
  {
    predicate Valid() {
      power.Valid() && power.rows == |freqBase| && power.cols == |timeBase|
    }
  }

  /** The spectrogram fields as format finds them: `None` until widebandFFT has succeeded. */
  predicate ValidSpectrum(o: Option<Spectrogram>)
  {
    o.Some? ==> o.value.Valid()
  }

  /** numpy.zeros refuses the negative frame count of a capture shorter than one frame. */
  datatype FftError = NegativeDimensions

  /**
   * `frameDb` stands for the numerics of one column: Hann taper, FFT,
   * |X|^2 / (3/8) and 10 log10. All the model asks of it is that it
   * maps a frame to as many bins as it has samples.
   */
  ghost predicate PreservesLength(frameDb: seq<real> -> seq<real>)
  {
    forall x :: |x| == FrameLength ==> |frameDb(x)| == FrameLength
  }

  /** The spectrogram widebandFFT computes, or its failure. */
  function Transform(y: seq<real>, fs: real, frameDb: seq<real> -> seq<real>): (r: Result<Spectrogram, FftError>)
    requires PreservesLength(frameDb)
    requires |y| >= FrameLength ==> fs != 0.0
    ensures r.Success? <==> |y| >= FrameLength
    ensures r.Success? ==> r.value.Valid() && r.value.power.rows == Hop && r.value.power.cols == FrameCount(|y|)
    ensures r.Success? ==> forall m :: 0 <= m < Hop ==> r.value.freqBase[m] * FrameLength as real == fs * m as real
    ensures r.Success? ==> forall k :: 0 <= k < FrameCount(|y|) ==> r.value.timeBase[k] * fs == ((k + 1) * Hop) as real
    ensures r.Success? ==> forall m, c :: 0 <= m < Hop && 0 <= c < FrameCount(|y|) ==>
      r.value.power.cells[m][c] == frameDb(Frame(y, c))[m]
  {
    var nwin := FrameCount(|y|);
    if nwin < 0 then Failure(NegativeDimensions)
    else
      Success(Spectrogram(
        seq(nwin, k requires 0 <= k < nwin => ((k + 1) * Hop) as real / fs),
        seq(Hop, m requires 0 <= m < Hop => fs * m as real / FrameLength as real),
        Matrix(Hop, nwin, seq(Hop, m requires 0 <= m < Hop => BinRow(y, frameDb, m)))))
  }

  /** Bin `m` of every frame's spectrum: one row of the power matrix. */
  function BinRow(y: seq<real>, frameDb: seq<real> -> seq<real>, m: nat): (row: seq<real>)
    requires PreservesLength(frameDb) && m < Hop && FrameCount(|y|) >= 0
    ensures |row| == FrameCount(|y|)
    ensures forall c :: 0 <= c < FrameCount(|y|) ==> row[c] == frameDb(Frame(y, c))[m]
  {
    seq(FrameCount(|y|), c requires 0 <= c < FrameCount(|y|) => frameDb(Frame(y, c))[m])
  }

  /** Only the first nwinf * Nw samples are ever read: a trailing partial frame is dropped. */
  lemma TransformIgnoresTail(y: seq<real>, fs: real, frameDb: seq<real> -> seq<real>)
    requires PreservesLength(frameDb) && |y| >= FrameLength && fs != 0.0
    ensures FullFrames(|y|) * FrameLength <= |y|
    ensures Transform(y, fs, frameDb) == Transform(y[..FullFrames(|y|) * FrameLength], fs, frameDb)
  {
    var y' := y[..FullFrames(|y|) * FrameLength];
    var nwin := FrameCount(|y|);
    assert FullFrames(|y'|) == FullFrames(|y|);
    forall c | 0 <= c < nwin ensures Frame(y, c) == Frame(y', c) {
      assert forall r :: 0 <= r < FrameLength ==> Frame(y, c)[r] == Frame(y', c)[r];
    }
    var s, s' := Transform(y, fs, frameDb).value, Transform(y', fs, frameDb).value;
    assert s.power.cells == s'.power.cells by {
      forall m | 0 <= m < Hop ensures s.power.cells[m] == s'.power.cells[m] {
        assert forall c :: 0 <= c < nwin ==> s.power.cells[m][c] == s'.power.cells[m][c];
      }
    }
  }

  /**
   * Stamp k of the spectrogram is the capture's stamp of the first sample
   * of frame k's second half, k * Nw/2 + Nw/2, less offset / Fs: the spectrogram's time base
   * counts from the first sample, the capture's from the header's offset.
   */
  lemma TimeBaseMarksFrameCentres(y: seq<real>, offset: real, fs: real, frameDb: seq<real> -> seq<real>, k: nat)
    requires PreservesLength(frameDb) && fs != 0.0 && k < FrameCount(|y|)
    ensures k * Hop + Hop < |y|
    ensures Transform(y, fs, frameDb).value.timeBase[k] == TimeAxis(|y|, offset, fs)[k * Hop + Hop] - offset / fs
  {
  }

  /**
   * The frame matrix `yw` of widebandFFT: 1024 rows, nwin columns, filled by
   * two slice assignments, the non-overlapping frames into the even columns
   * and the half-shifted frames into the odd ones. Column c is frame c.
   */
  method PackFrames(y: seq<real>) returns (yw: array2<real>)
    requires FrameCount(|y|) >= 0
    ensures fresh(yw) && yw.Length0 == FrameLength && yw.Length1 == FrameCount(|y|)
    ensures forall r, c :: 0 <= r < FrameLength && 0 <= c < FrameCount(|y|) ==> yw[r, c] == y[c * Hop + r]
  {
    var Nw := FrameLength;
    var nwinf := FullFrames(|y|);
    var nwinh: int := nwinf - 1;
    var nwin := nwinf + nwinh;
    yw := new real[Nw, nwin]((r: nat, c: nat) => 0.0);
    // even columns: the tiling frames, reshaped column-major
    var even := ReshapeColumns(y[..nwinf * Nw], nwinf);
    forall r, k | 0 <= r < Nw && 0 <= k < nwinf {
      yw[r, 2 * k] := even.cells[r][k];
    }
    // odd columns: the frames shifted by half a frame, reshaped the same way
    var odd := ReshapeColumns(y[Nw / 2 .. nwinf * Nw - Nw / 2], nwinh);
    forall r, k | 0 <= r < Nw && 0 <= k < nwinh {
      yw[r, 2 * k + 1] := odd.cells[r][k];
    }
    Interleaved(yw, y, even, odd);
  }

  /** Even columns from the tiling frames, odd ones from the half-shifted frames: column c is frame c. */
  lemma Interleaved(yw: array2<real>, y: seq<real>, even: Matrix, odd: Matrix)
    requires FrameCount(|y|) >= 0
    requires yw.Length0 == FrameLength && yw.Length1 == FrameCount(|y|)
    requires even == ReshapeColumns(y[..FullFrames(|y|) * FrameLength], FullFrames(|y|))
    requires odd == ReshapeColumns(y[Hop .. FullFrames(|y|) * FrameLength - Hop], FullFrames(|y|) - 1)
    requires forall r, k :: 0 <= r < FrameLength && 0 <= k < even.cols ==> yw[r, 2 * k] == even.cells[r][k]
    requires forall r, k :: 0 <= r < FrameLength && 0 <= k < odd.cols ==> yw[r, 2 * k + 1] == odd.cells[r][k]
    ensures forall r, c :: 0 <= r < FrameLength && 0 <= c < FrameCount(|y|) ==> yw[r, c] == y[c * Hop + r]
  {
    var Nw, nwinf := FrameLength, FullFrames(|y|);
    forall r, c | 0 <= r < Nw && 0 <= c < FrameCount(|y|) ensures yw[r, c] == y[c * Hop + r] {
      var k := c / 2;
      if c % 2 == 0 {
        assert c == 2 * k && c * Hop == k * Nw;
        assert yw[r, 2 * k] == even.cells[r][k] == y[..nwinf * Nw][k * Nw + r];
      } else {
        assert c == 2 * k + 1 && c * Hop == k * Nw + Hop;
        assert yw[r, 2 * k + 1] == odd.cells[r][k] == y[Hop .. nwinf * Nw - Hop][k * Nw + r];
      }
    }
  }

  /** Read column by column, the frame matrix lists the frames. */
  lemma ColumnsAreFrames(yw: array2<real>, y: seq<real>)
    requires yw.Length0 == FrameLength && yw.Length1 == FrameCount(|y|)
    requires forall r, c :: 0 <= r < FrameLength && 0 <= c < FrameCount(|y|) ==> yw[r, c] == y[c * Hop + r]
    ensures forall c :: 0 <= c < FrameCount(|y|) ==> Column(ToMatrix(yw), c) == Frame(y, c)
  {
    forall c | 0 <= c < FrameCount(|y|) ensures Column(ToMatrix(yw), c) == Frame(y, c) {
      var col, f := Column(ToMatrix(yw), c), Frame(y, c);
      assert forall r :: 0 <= r < FrameLength ==> col[r] == f[r];
    }
  }

  /** The array of one-sided spectra holds exactly the power matrix of Transform. */
  lemma SpectrumMatches(S: array2<real>, y: seq<real>, fs: real, frameDb: seq<real> -> seq<real>)
    requires PreservesLength(frameDb) && |y| >= FrameLength && fs != 0.0
    requires S.Length0 == Hop && S.Length1 == FrameCount(|y|)
    requires forall m, c :: 0 <= m < Hop && 0 <= c < S.Length1 ==> S[m, c] == frameDb(Frame(y, c))[m]
    ensures ToMatrix(S) == Transform(y, fs, frameDb).value.power
  {
    var P, Q := ToMatrix(S), Transform(y, fs, frameDb).value.power;
    forall m | 0 <= m < Hop ensures P.cells[m] == Q.cells[m] {
      assert forall c :: 0 <= c < S.Length1 ==> P.cells[m][c] == Q.cells[m][c];
    }
  }

  /**
   * The loop of widebandFFT over the columns of the frame matrix: the
   * one-sided spectrum (first Nw/2 bins) of every frame, one column each.
   */
  method FrameSpectra(yw: array2<real>, y: seq<real>, frameDb: seq<real> -> seq<real>) returns (S: array2<real>)
    requires PreservesLength(frameDb) && FrameCount(|y|) >= 0
    requires yw.Length0 == FrameLength && yw.Length1 == FrameCount(|y|)
    requires forall r, c :: 0 <= r < FrameLength && 0 <= c < FrameCount(|y|) ==> yw[r, c] == y[c * Hop + r]
    ensures fresh(S) && S.Length0 == Hop && S.Length1 == FrameCount(|y|)
    ensures forall m, c :: 0 <= m < Hop && 0 <= c < FrameCount(|y|) ==> S[m, c] == frameDb(Frame(y, c))[m]
  {
    var nwin := yw.Length1;
    ColumnsAreFrames(yw, y);
    var frames := ToMatrix(yw);
    S := new real[Hop, nwin]((m: nat, c: nat) => 0.0);
    for i := 0 to nwin
      modifies S
      invariant forall m, c :: 0 <= m < Hop && 0 <= c < i ==> S[m, c] == frameDb(Frame(y, c))[m]
    {
      var spectrum := frameDb(Column(frames, i));
      assert spectrum == frameDb(Frame(y, i));
      forall m | 0 <= m < Hop {
        S[m, i] := spectrum[m];
      }
    }
  }

  /** A very-low-frequency capture and, once transformed, its spectrogram. */
  class WidebandVLF {
    var fileStart: int
    var date: seq<int>
    var eField: seq<real>
    var time: seq<real>
    var Fs: real
    var timeBase: seq<real>
    var freqBase: seq<real>
    var power: Matrix
    /** False while timeBase, freqBase and power are still the constructor's empty lists. */
    var transformed: bool

    ghost predicate Valid()
      reads this
    {
      |time| == |eField| && (eField != [] ==> Fs != 0.0) && Spectrogram(timeBase, freqBase, power).Valid()
    }

    /** The spectrogram, once widebandFFT has produced one. */
    function Spectrum(): (o: Option<Spectrogram>)
      reads this
      ensures Valid() ==> ValidSpectrum(o)
    {
      if transformed then Some(Spectrogram(timeBase, freqBase, power)) else None
    }

    /**
     * Nothing loaded yet: every sequence empty, no spectrogram, the
     * placeholder date. The source starts fileStart and Fs as empty lists
     * too; here they are 0 and 0.0, which nothing uses before importFile
     * sets them (widebandFFT reads Fs first, but on the empty capture it
     * fails at numpy.zeros before it first uses Fs).
     */
    constructor ()
      ensures Valid() && Spectrum() == None
      ensures eField == [] && time == [] && timeBase == [] && freqBase == [] && power == Matrix(0, 0, [])
      ensures date == [1999, 1, 1, 0, 0, 0]
    {
      fileStart, Fs := 0, 0.0;
      transformed := false;
      eField, time, timeBase, freqBase := [], [], [], [];
      power := Matrix(0, 0, []);
      date := [1999, 1, 1, 0, 0, 0];
    }

    /**
     * Takes the decoded header (start marker, Fs, offset) and int16 samples;
     * normalises the samples and builds their time base. An earlier
     * spectrogram is left as it was.
     */
    method ImportFile(start: int, fs: real, offset: real, y: seq<Int16>)
      requires Valid() && fs != 0.0
      modifies this
      ensures Valid()
      ensures fileStart == start && Fs == fs
      ensures eField == Normalize(y) && time == TimeAxis(|y|, offset, fs)
      ensures date == old(date) && Spectrum() == old(Spectrum())
    {
      fileStart := start;
      var e := Normalize(y);
      var t := TimeAxis(|y|, offset, fs);
      eField := e;
      time := t;
      Fs := fs;
    }

    /**
     * Transforms every column of the frame matrix and keeps the first 512
     * bins, with its frequency and time bases.
     */
    method WidebandFFT(frameDb: seq<real> -> seq<real>) returns (outcome: Outcome<FftError>)
      requires Valid() && PreservesLength(frameDb)
      modifies this
      ensures Valid()
      ensures eField == old(eField) && time == old(time) && Fs == old(Fs)
      ensures date == old(date) && fileStart == old(fileStart)
      ensures match Transform(old(eField), old(Fs), frameDb)
        case Success(s) => outcome == Pass && Spectrum() == Some(s)
        case Failure(e) => outcome == Fail(e) && Spectrum() == old(Spectrum())
    {
      var y := eField;
      var Nw := FrameLength;
      var Ny := |y|;
      var nwinf := FullFrames(Ny);
      var nwinh: int := nwinf - 1;
      var nwin := nwinf + nwinh;
      if nwin < 0 {
        return Fail(NegativeDimensions);
      }
      var fs := Fs;
      assert y != [];
      var yw := PackFrames(y);
      var S := FrameSpectra(yw, y, frameDb);
      SpectrumMatches(S, y, fs, frameDb);
      timeBase := seq(nwin, k requires 0 <= k < nwin => ((k + 1) * Hop) as real / fs);
      freqBase := seq(Hop, m requires 0 <= m < Hop => fs * m as real / Nw as real);
      power := ToMatrix(S);
      transformed := true;
      return Pass;
    }
  }
}

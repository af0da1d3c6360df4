# pyWhistler in Dafny

pyWhistler scans very-low-frequency (VLF) radio captures for whistlers,
the dispersed radio emissions that lightning produces. This project models
and proves the four steps of that search:

- **`WidebandVLF`** (`Wideband.dfy`). `ImportFile` normalises the int16
  samples of a capture and builds their time base. `WidebandFFT` packs the
  samples into 1024-sample frames that overlap by 50%. It transforms each
  frame and keeps the first 512 bins of each, together with the frequency
  and time bases.
- **`Spectra`** (`Extraction.dfy`, `Masks.dfy`). `Format` cuts a detection
  window out of the spectrogram around one instant. It pads the power with
  zeros on both sides and extends the time base to match. It selects the
  frequency rows inside the band and the time columns inside the window,
  then reconciles the column count against the expected count. Finally it
  crops, clips to [-40, 0] dB in place, and binarises at a percentile.
- **`NeuralNetwork`** (`WeightFile.dfy`, `Forward.dfy`, `Classifier.dfy`).
  - `GetNN` reads the weight file.
  - `Predict` runs the forward pass over the image, flattened in column-major
    order, and returns the label.
  - `Search` cuts and labels a window at every instant of a grid. It keeps
    the windows whose label is truthy.

`Matrices.dfy` holds the numpy shapes that the steps share: matrices that
keep their shape even with no rows, boolean-mask selection, `ravel`, and
`sum` of a mask.

Each class keeps the source's fields and updates them in place. Each
method is proved against a specification function:
- `WidebandFFT` against `Transform`;
- `Format` against `Extract`;
- `GetNN` against `ParseWeights`;
- `Predict` against `Label`;
- `Search` against `Detections`.

Lemmas state the properties of those functions. The model uses arrays
where the source mutates numpy arrays:
- the frame matrix `yw`, filled by two strided slice assignments;
- the spectrum matrix, filled one column per frame;
- the cropped image, clipped in place;
- each weight block `theta`, filled cell by cell.

Behaviour of the source that is easy to get wrong:

- **The bias cell is 0.0.** `predict` prepends
  `numpy.zeros((m,1))` to every activation
  (`pyWhistler/pyWhistler.py:204-205`). So the first column of every weight
  matrix is multiplied by zero and never matters
  (`Forward.BiasColumnIgnored`).
- **The last output unit is dropped.** The column that
  `a[-1][:,0:-1]` removes (`pyWhistler/pyWhistler.py:207`) is the last
  output unit. That unit's weights never influence the
  label (`Forward.LastUnitWeightsIgnored`). The argmax also runs over the
  zero bias cell, so the label is -1 exactly when no kept output is
  positive.
- **A label of -1 counts as a detection.** `search` keeps every window
  whose label is not 0, and -1 is truthy (`Classifier.NegativeLabelKept`).
- **Short or empty captures do not fail on import.** `importFile` reads
  whatever the file holds. A capture shorter than one frame fails later,
  in `widebandFFT`: `numpy.zeros` is given a negative column count.
- **The spectrogram's time base ignores the capture's offset.** `importFile`
  stamps sample i at (i + offset)/Fs (`pyWhistler/pyWhistler.py:32-34`), but
  `widebandFFT` stamps frame k at (k + 1)·512/Fs (`pyWhistler/pyWhistler.py:76`).
  So frame k's stamp is the capture stamp of the first sample of its second
  half, less offset/Fs
  (`Wideband.TimeBaseMarksFrameCentres`).
- **`format` before any spectrogram fails on the shape.** Until `widebandFFT`
  succeeds, the wideband's `power` is the empty list of the constructor, and
  `image.shape` (`pyWhistler/pyWhistler.py:103`) raises before `timeBase[10]`
  is read. The model reports this as its own error, `NoSpectrogram`.
- **An empty crop fails after it is stored.** When no frequency lies in the
  band, or no column in the window, `format` stores the empty crop as its
  power (`pyWhistler/pyWhistler.py:126`), and `numpy.percentile` then raises
  (`pyWhistler/pyWhistler.py:134`). The model reports `EmptyCrop` and keeps
  the stored power.
- **The reconciled window has exactly the expected width.** On the time base
  `widebandFFT` builds with a positive Fs, the time mask over the extended
  base is one run of columns within one of floor(1.25/step). The single
  roll of `pyWhistler/pyWhistler.py:118-121` therefore brings it to exactly
  that count, whenever the window lies inside the extended base and spans
  at least two frame steps (`Extraction.FormatWindowWidth`).

## Model

| member | source | states |
|---|---|---|
| Wideband.Normalize | pyWhistler/pyWhistler.py:27-28 | one value per sample; each value times 32768 is the int16 sample, so it lies in [-1, 32767/32768] |
| Wideband.TimeAxis | pyWhistler/pyWhistler.py:32-34 | one stamp per sample; stamp i times Fs is i + offset; stamps strictly increase when Fs > 0 |
| Wideband.FrameCount | pyWhistler/pyWhistler.py:54-56 | nwin = 2·floor(Ny/1024) - 1 is negative exactly when the capture is shorter than 1024 samples; otherwise the last frame ends at sample nwinf·1024 |
| Wideband.Frame | pyWhistler/pyWhistler.py:59-61 | frame c is the 1024 samples starting at c·512 |
| Wideband.FramesOverlap | pyWhistler/pyWhistler.py:59-61 | the first half of frame c+1 is the second half of frame c |
| Wideband.ReshapeColumns | pyWhistler/pyWhistler.py:60-61 | `reshape(Nw, cols, order='F')`: entry (r, k) is element k·1024 + r |
| Wideband.Transform | pyWhistler/pyWhistler.py:40-80 | succeeds exactly when there are at least 1024 samples; then 512 rows by nwin columns, cell (m, c) is bin m of frame c, freqBase[m]·1024 = Fs·m, timeBase[k]·Fs = (k+1)·512 |
| Wideband.BinRow | pyWhistler/pyWhistler.py:69-72 | row m of the power holds bin m of every frame, in frame order |
| Wideband.TransformIgnoresTail | pyWhistler/pyWhistler.py:54-61 | samples after the last full 1024-sample tile never change the spectrogram |
| Wideband.TimeBaseMarksFrameCentres | pyWhistler/pyWhistler.py:76 | spectrogram stamp k equals the capture's stamp of sample k·512 + 512 (the first sample of frame k's second half) less offset/Fs |
| Wideband.PackFrames | pyWhistler/pyWhistler.py:59-61 | the two strided slice assignments fill a fresh 1024 × nwin array whose cell (r, c) is sample c·512 + r |
| Wideband.Interleaved | pyWhistler/pyWhistler.py:60-61 | even columns from the tiling reshape and odd columns from the half-shifted reshape together make column c sample run c·512 .. c·512+1023 |
| Wideband.ColumnsAreFrames | pyWhistler/pyWhistler.py:69-70 | column c of the frame matrix, top to bottom, is frame c |
| Wideband.FrameSpectra | pyWhistler/pyWhistler.py:67-72 | the loop over columns leaves bin m of frame c in cell (m, c) of a fresh 512 × nwin array |
| Wideband.SpectrumMatches | pyWhistler/pyWhistler.py:69-73 | that array holds exactly the power matrix of Transform |
| Wideband.WidebandVLF.constructor | pyWhistler/pyWhistler.py:8-11 | all sequences empty, no spectrogram yet, date 1999-01-01 00:00:00 |
| Wideband.WidebandVLF.ImportFile | pyWhistler/pyWhistler.py:15-38 | eField is the normalised samples, time the time axis, Fs and fileStart as read; the spectrogram and date are unchanged |
| Wideband.WidebandVLF.WidebandFFT | pyWhistler/pyWhistler.py:40-80 | on success the wideband holds Transform's spectrogram of the samples; on failure (capture shorter than a frame) nothing changes; samples, time, Fs, date untouched |
| Masks.Shrink | pyWhistler/pyWhistler.py:119 | `m & roll(m, -1)`: same length, only clears cells |
| Masks.Grow | pyWhistler/pyWhistler.py:121 | `m \| roll(m, 1)`: same length, only sets cells |
| Masks.ExpectedColumns | pyWhistler/pyWhistler.py:113 | floor((before + after)/step), or +inf exactly when step is 0 |
| Masks.Reconcile | pyWhistler/pyWhistler.py:118-121 | Shrink when the mask counts more than expected, Grow when fewer (always for +inf), unchanged when equal |
| Masks.ShrinkRun | pyWhistler/pyWhistler.py:119 | on one contiguous run that does not fill the mask, Shrink clears exactly its last cell |
| Masks.GrowRun | pyWhistler/pyWhistler.py:121 | on such a run, Grow sets exactly the cell after it (wrapping) |
| Masks.ReconcileRun | pyWhistler/pyWhistler.py:118-121 | on such a run, reconciliation moves the count exactly one step toward the expected count |
| Matrices.Count | pyWhistler/pyWhistler.py:118 | `numpy.sum` of a mask is at most its length |
| Matrices.Select | pyWhistler/pyWhistler.py:123-124 | boolean-mask selection keeps Count(mask) entries, all from the input |
| Matrices.SelectAt | pyWhistler/pyWhistler.py:123-124 | a selected entry lands at the position given by the count of selected cells before it, so order is kept |
| Matrices.SelectRows | pyWhistler/pyWhistler.py:123 | `image[freqCut, :]` keeps Count(freqCut) rows of unchanged width, and they are the selected rows of the input, in order |
| Matrices.SelectCols | pyWhistler/pyWhistler.py:124 | `image[:, timeCut]` keeps every row, each reduced to its selected cells |
| Matrices.FlattenColumns | pyWhistler/pyWhistler.py:181 | `ravel(image, 1)` of the first k columns has k·rows values; `Matrices.FlattenColumnsAt` places each cell |
| Matrices.FlattenColumnsAt | pyWhistler/pyWhistler.py:181 | in `ravel(image, 1)` cell (r, c) sits at position c·rows + r |
| Extraction.PadRow | pyWhistler/pyWhistler.py:103-105 | a row becomes zeros, the row, zeros |
| Extraction.PadColumns | pyWhistler/pyWhistler.py:103-105 | three times as many columns; the original occupies the middle third and the rest is 0 |
| Extraction.ExtendTimeBase | pyWhistler/pyWhistler.py:109-111 | three copies of the time base: shifted back by its last stamp, unchanged, shifted forward by it |
| Extraction.ExtendedTimeIncreases | pyWhistler/pyWhistler.py:109-111 | for an increasing base with a positive first stamp the extended base still strictly increases across both joins |
| Extraction.FreqMask | pyWhistler/pyWhistler.py:115 | row i is selected exactly when 1000·lo < f[i] < 1000·hi |
| Extraction.TimeMask | pyWhistler/pyWhistler.py:116 | column j is selected exactly when t - before < x[j] < t + after |
| Extraction.ColumnMask | pyWhistler/pyWhistler.py:107-121 | one mask cell per padded column; its count is stated by `Extraction.ColumnMaskReconciles` and `Extraction.FormatWindowWidth` |
| Extraction.TimeMaskIsRun | pyWhistler/pyWhistler.py:116 | over an increasing time base the window selects exactly one contiguous run of columns, from the first stamp after t - before to the last stamp before t + after |
| Extraction.ColumnMaskReconciles | pyWhistler/pyWhistler.py:107-121 | for an increasing base from a positive first stamp, the time mask counts the run's length, and the reconciled mask is one column shorter, one longer or unchanged, whichever moves toward the expected count |
| Extraction.UniformWindowWidth | pyWhistler/pyWhistler.py:107-121 | on a uniform time base (k + 1)·h, a window inside the extended base spanning at least two steps keeps exactly floor((before + after)/h) columns, and h is the step format reads |
| Extraction.StampedWindowWidth | pyWhistler/pyWhistler.py:107-121 | the same for any time base whose stamp k times Fs is (k + 1)·512, as `widebandFFT` builds it |
| Extraction.FormatWindowWidth | pyWhistler/pyWhistler.py:107-121 | the same for the time base of Transform: the reconciled mask keeps exactly the expected column count |
| Extraction.Clip | pyWhistler/pyWhistler.py:128-132 | the result lies in [-40, 0] and equals the input when the input does |
| Extraction.ClipAll | pyWhistler/pyWhistler.py:131-132 | same shape, every cell clipped |
| Extraction.Binarize | pyWhistler/pyWhistler.py:134-136 | same shape, every cell 0.0 or 1.0, and 1.0 exactly when the input cell exceeds the level |
| Extraction.CropOf | pyWhistler/pyWhistler.py:101-124 | the crop has one row per in-band frequency and one column per selected padded column |
| Extraction.CropCell | pyWhistler/pyWhistler.py:101-124 | the padded power cell (i, j) of a selected row and column lands in the crop at (selected rows before i, selected columns before j) |
| Extraction.Extract | pyWhistler/pyWhistler.py:93-138 | fails with NoSpectrogram exactly when widebandFFT has not succeeded (`image.shape`), with TooFewFrames exactly when the spectrogram has fewer than 11 frames (`timeBase[10]`), and with EmptyCrop exactly when no frequency or no column is selected (`numpy.percentile`); otherwise power and image share that shape, width is the row count, power lies in [-40, 0], image is binary |
| Extraction.NewArray | pyWhistler/pyWhistler.py:123-124 | the mask indexing yields a fresh array holding the selection |
| Extraction.Crop | pyWhistler/pyWhistler.py:101-124 | the fresh cropped array holds CropOf |
| Extraction.ClipInPlace | pyWhistler/pyWhistler.py:128-132 | the two masked assignments leave the array equal to ClipAll of its old value |
| Extraction.Threshold | pyWhistler/pyWhistler.py:134-136 | a fresh array holding Binarize of the input |
| Extraction.CutWindow | pyWhistler/pyWhistler.py:101-138 | the array pipeline computes exactly the window of Extract |
| Extraction.Spectra.constructor | pyWhistler/pyWhistler.py:84-91 | threshold 85, band (3.0, 4.5) kHz, buffers 0.5 s and 0.75 s, empty power and image |
| Extraction.Spectra.Format | pyWhistler/pyWhistler.py:93-138 | time and date always set; on success power, image, width are Extract's window; on failure image and width are unchanged, and power is unchanged too except on an empty crop, where it is the stored empty crop; settings untouched |
| WeightFile.LineAt | pyWhistler/pyWhistler.py:169 | reading past the last line gives an empty line |
| WeightFile.ReadRow | pyWhistler/pyWhistler.py:171-172 | a row is read exactly when its first n tokens exist and are numbers, and it then holds their values |
| WeightFile.ReadRowError | pyWhistler/pyWhistler.py:171-172 | the short-line error exactly when the line is short and every token it has is a number; the not-a-number error exactly when one of the first n tokens is not a number |
| WeightFile.ExtraTokensIgnored | pyWhistler/pyWhistler.py:171-172 | tokens after the n-th never change the row |
| WeightFile.ReadRows | pyWhistler/pyWhistler.py:168-172 | the row loop for one block reads k rows when it succeeds; `WeightFile.ReadRowsAll` and `WeightFile.ReadRowsFailurePropagates` give its rows and its error |
| WeightFile.ReadRowsAll | pyWhistler/pyWhistler.py:168-172 | a block is read exactly when each of its m rows is, and row i is the i-th line after the block start |
| WeightFile.ReadRowsFailurePropagates | pyWhistler/pyWhistler.py:168-172 | a block fails with the error of its first bad row |
| WeightFile.ParseBlocks | pyWhistler/pyWhistler.py:161-175 | the header loop never removes a block |
| WeightFile.BlockOfRows | pyWhistler/pyWhistler.py:166-172 | a block read without error is a valid m × n matrix whose row i is read from line pos + i |
| WeightFile.ParseBlocksExtends | pyWhistler/pyWhistler.py:174 | the header loop only appends to Theta |
| WeightFile.ParseBlocksStep | pyWhistler/pyWhistler.py:161-175 | a pass that reads a block continues after the block and its skipped separator line, with the block appended |
| WeightFile.BlocksAsDeclared | pyWhistler/pyWhistler.py:161-174 | every block appended has, in order, the shape of its (m, n) pair in the header |
| WeightFile.FirstBlockRows | pyWhistler/pyWhistler.py:166-175 | the next block appended holds, row by row, the lines starting at the current line |
| WeightFile.ParseWeights | pyWhistler/pyWhistler.py:156-175 | getNN: the header line from the first line, blocks read from line 1 on; its properties are the `WeightFile.ParseBlocks*`, `BlocksAsDeclared`, `OddHeaderFails`, `EmptyFileNoWeights` and `TwoTokenHeader` lemmas |
| WeightFile.OddHeaderFails | pyWhistler/pyWhistler.py:161-164 | an odd number of header tokens always ends in an exception |
| WeightFile.EmptyFileNoWeights | pyWhistler/pyWhistler.py:156-161 | an empty file gives no weights and no exception |
| WeightFile.TwoTokenHeader | pyWhistler/pyWhistler.py:159-175 | a two-token header yields one m-by-n block made of lines 1..m, or an exception and no block |
| Forward.Bias | pyWhistler/pyWhistler.py:204-205 | the activation is a 0.0 cell followed by the layer's values |
| Forward.Product | pyWhistler/pyWhistler.py:200 | `dot(a, transpose(theta))`: entry k is the inner product of a with row k |
| Forward.Layer | pyWhistler/pyWhistler.py:200-201 | output k is the sigmoid of the bias-augmented input times weight row k |
| Forward.FeedForward | pyWhistler/pyWhistler.py:195-201 | succeeds exactly when every weight matrix has one column more than its input's width; otherwise a shape mismatch; output width is the last matrix's rows |
| Forward.FeedForwardStep | pyWhistler/pyWhistler.py:195-201 | running the layers from j on is layer j followed by the rest |
| Forward.FeedForwardLast | pyWhistler/pyWhistler.py:195-201 | running all layers is running all but the last, then the last |
| Forward.FirstArgMax | pyWhistler/pyWhistler.py:211 | the index of a maximum entry, and no earlier entry reaches it |
| Forward.OutputLabel | pyWhistler/pyWhistler.py:207-213 | fails exactly on an empty output; the label lies in [-1, units - 2]; it is -1 exactly when no output but the last is positive; otherwise it is the first maximal such output, which is positive |
| Forward.Label | pyWhistler/pyWhistler.py:177-213 | succeeds exactly when the layer shapes chain and the output is not empty |
| Forward.LastOutputIgnored | pyWhistler/pyWhistler.py:207 | the final output value never changes the label |
| Forward.LastUnitWeightsIgnored | pyWhistler/pyWhistler.py:200-207 | the final output unit's weights never change the label |
| Forward.InnerBias | pyWhistler/pyWhistler.py:200-205 | with the zero bias cell, the first weight column does not change a product |
| Forward.BiasColumnIgnored | pyWhistler/pyWhistler.py:200-205 | no weight matrix's first column ever changes the forward pass |
| Forward.FeedForwardPositive | pyWhistler/pyWhistler.py:215-216 | with a positive sigmoid every output of at least one layer is positive |
| Forward.NoNegativeLabel | pyWhistler/pyWhistler.py:207-216 | with a positive sigmoid, at least one layer and two output units, the label is never -1 |
| Classifier.WindowLabel | pyWhistler/pyWhistler.py:230-234 | one pass of the search loop: format's exception, else predict's exception, else predict's label |
| Classifier.Outcomes | pyWhistler/pyWhistler.py:228-234 | one result per instant: the label of the window cut around it, or the exception |
| Classifier.Truthy | pyWhistler/pyWhistler.py:236 | a result counts as a detection exactly when it is not the label 0 |
| Classifier.Scan | pyWhistler/pyWhistler.py:228-237 | the search loop over the first n instants; `Classifier.ScanSelectsTruthy`, `ScanFirstFailure` and `ScanFailureSticks` state what it returns |
| Classifier.ScanSelectsTruthy | pyWhistler/pyWhistler.py:226-239 | the loop succeeds exactly when every window does, and then keeps exactly the truthy instants, in order |
| Classifier.ScanFirstFailure | pyWhistler/pyWhistler.py:228-234 | the loop raises the exception of the first window that raises |
| Classifier.ScanFailureSticks | pyWhistler/pyWhistler.py:228-234 | once a prefix raises, the whole loop raises the same |
| Classifier.Detections | pyWhistler/pyWhistler.py:221-239 | search: the scan of every instant's outcome; `Classifier.DetectionsSelectNonZero` states what it returns |
| Classifier.DetectionsSelectNonZero | pyWhistler/pyWhistler.py:221-239 | search succeeds exactly when every window is cut and labelled, and then returns exactly the instants whose label is not 0, in order |
| Classifier.NegativeLabelKept | pyWhistler/pyWhistler.py:236-237 | a window labelled -1 is kept |
| Classifier.NeuralNetwork.constructor | pyWhistler/pyWhistler.py:151-152 | no weights |
| Classifier.NeuralNetwork.GetNN | pyWhistler/pyWhistler.py:154-175 | Theta ends as ParseWeights' blocks, including the blocks completed before an exception, and the outcome is its exception or none |
| Classifier.ReadNextBlock | pyWhistler/pyWhistler.py:162-175 | one pass either raises the exception that ends ParseBlocks or reads a valid block after which ParseBlocks continues with a shorter header |
| Classifier.ReadBlock | pyWhistler/pyWhistler.py:166-172 | the filled m × n array equals the rows ReadRows reads, or the error of the first bad row is reported |
| Classifier.NeuralNetwork.Predict | pyWhistler/pyWhistler.py:177-213 | the loop over layers returns Label of the column-major flattened image |
| Classifier.NeuralNetwork.LabelWindow | pyWhistler/pyWhistler.py:230-234 | a fresh Spectra stamped with t, and WindowLabel for t |
| Classifier.NeuralNetwork.Visit | pyWhistler/pyWhistler.py:228-237 | the window's result is WindowLabel; the kept list grows by that window exactly when its label is truthy |
| Classifier.NeuralNetwork.Search | pyWhistler/pyWhistler.py:221-239 | when Detections succeeds the kept windows are stamped with exactly its instants, in order; otherwise the same exception |

## Left out

- Floating point: samples, time stamps, powers and weights are exact reals. Rounding, overflow to inf and NaN are not modelled.
- The Hann taper, FFT, |X|²/varw and 10·log10 of each frame are left out. Together they are the parameter `frameDb`, which only has to map a 1024-sample frame to 1024 values (`pyWhistler/pyWhistler.py:48-51,64-73`).
- `numpy.percentile` is the parameter `percentile`, applied to the clipped crop flattened row by row. Only its exception on an empty crop is modelled, as `EmptyCrop`.
- The sigmoid is the parameter `sigmoid`. Only `Forward.FeedForwardPositive` and `Forward.NoNegativeLabel` assume it is positive. `sigmoidGradient` is not used by the core and is not modelled.
- File reading is left out. `ImportFile` takes the decoded header and int16 samples as parameters. `GetNN` takes the file as lines already split into tokens, each carrying what `int()` and `float()` make of it.
- Wideband.WidebandVLF.ImportFile: requires a non-zero Fs. numpy's division by zero gives inf or NaN, which exact reals cannot hold.
- Classifier.NeuralNetwork.Search: takes the grid of instants (`linspace(0.2, 60.0, 60.0/0.2)`, `pyWhistler/pyWhistler.py:224`) as the parameter `times`. It states the instants of the kept windows, not their images.
- Classifier.NeuralNetwork.Predict: returns the label as an integer, not as the one-element float array `p - 1.0`.
- Aliasing is reduced to equal values. `Spectra.power` holds the clipped crop because the source clips the array that `self.power` refers to. The model captures the resulting value, not the sharing. `Spectra.date` likewise holds the wideband's date as a value.
- `WidebandVLF` starts `fileStart` at 0 and `Fs` at 0.0, where the source starts both as empty lists. Nothing uses them before `ImportFile` sets them. `WidebandFFT` reads `Fs` first (`pyWhistler/pyWhistler.py:43`), but on the empty capture it fails at `numpy.zeros` (line 59) before it first uses `Fs` (line 75).
- `Spectra.width` starts at 0. In the source the attribute exists only after `format`.
- `deChirp` and `whistlerPlot` are empty stubs and are not modelled. The command-line entry point (`pyWhistler/pyWhistler.py:242-272`) is I/O and is not modelled.

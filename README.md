# Multi-view GAN inversion: the discrete core, in Dafny

The repository fits the latent code of a 3D-aware generator (EG3D) to
several photographs of one face, each seen from a different camera angle.
It then fine-tunes the generator around that latent ("pivotal tuning").
The numeric optimisation cannot be modelled. What this project models is
the discrete logic around it:

- **View selection** (`ImageSelection`). `select_evenly` picks, for `k`
  target angles, the first view nearest to each target. One target is the
  fixed angle pi/2. Two or more targets are a linspace from the smallest
  observed angle to the largest. `select_evenly_interpolate` selects
  `2k - 1` views and splits them by position into `k` primary views and
  `k - 1` interpolation views.
- **Depth sample table** (`Metrics.DepthMetric`). A class over a
  two-dimensional array of 128 x 128 depth images, plus a per-view fill
  counter. `Update` writes the next free slot of one view.
- **Command-line options** (`Cli`). The `click.option` declarations of the
  two entry scripts become a list of declarations (flag, type, required or
  default). The `--flag=value` words are read back into typed values.
  Repeated flags keep their last value. A missing required option, an
  undeclared flag or an unconvertible text is rejected.
- **Entry scripts** (`MultiInversionMultiW` for
  `multi_inversion_multi_w.py`, `MultiInversion` for `multi_inversion.py`).
  Each module models, for its script:
  - the options;
  - the run-directory name `desc`, with a parser that reads it back;
  - the `config.json` record (as an ordered key/value list, `Records`);
  - which latent of the W trajectory goes to pivotal tuning and which one
    is saved;
  - the frames of the progress video (`Video`): panels of a target above
    a rendering, laid out left to right.

  The generator, the latents and the optimisation stages are
  uninterpreted: their results are inputs.
- **Experiment sweep** (`RunPipeline`). The two handler classes append one
  `--flag=value` word per keyword argument. The model proves that the
  target script's declarations accept these words, and that they parse
  into exactly the handler's values, with the default seed 303 and frame
  rate 30.

`Text` holds Python's `str()` of integers and booleans, `split("/")[-1]`
and prefix helpers. `PyList` holds `[-1]` and `[-1:]`. `Wrappers` holds
`Option`.

## Model

| member | source | states |
|---|---|---|
| ImageSelection.MinAngle | eg3d/inversion/image_selection.py:14 | `torch.min` of the non-empty angle list is one of the angles and no angle is smaller |
| ImageSelection.MaxAngle | eg3d/inversion/image_selection.py:15 | `torch.max` is one of the angles and no angle is larger |
| ImageSelection.Dist | eg3d/inversion/image_selection.py:26 | the distance is non-negative and zero exactly when the angle equals the target |
| ImageSelection.Nearest | eg3d/inversion/image_selection.py:26-27 | `torch.argmin(abs(angles - t))`: the pick is a valid view index (its partner `NearestIsFirstArgMin` shows it is the first least-distance view) |
| ImageSelection.NearestIsFirstArgMin | eg3d/inversion/image_selection.py:26-27 | the chosen index has the least distance to the target, and every earlier index is strictly farther (argmin returns the first minimum) |
| ImageSelection.FirstArgMinUnique | eg3d/inversion/image_selection.py:27 | only one index is a first position of least distance, so the argmin choice is determined |
| ImageSelection.NearestOfTwo | eg3d/inversion/image_selection.py:26-27 | between two views, the second is chosen only when it is strictly nearer |
| ImageSelection.TargetAngles | eg3d/inversion/image_selection.py:17-21 | there are exactly `k` target angles for every `k` |
| ImageSelection.TargetAnglesShape | eg3d/inversion/image_selection.py:17-21 | one target is exactly `[pi/2]`; two or more start at the minimum angle, end at the maximum, and are one equal step `(max - min)/(k - 1)` apart |
| ImageSelection.Step | eg3d/inversion/image_selection.py:21 | the linspace spacing `(hi - lo)/(k - 1)`; `StepSpans` shows `k - 1` steps cover the interval |
| ImageSelection.StepSpans | eg3d/inversion/image_selection.py:21 | `k - 1` steps add up to `hi - lo` |
| ImageSelection.Point | eg3d/inversion/image_selection.py:21 | linspace point `j`, reached by `j` steps from `lo` (its partner `PointIsProduct` gives the closed form) |
| ImageSelection.PointIsProduct | eg3d/inversion/image_selection.py:21 | point `j` is `lo + j * step` |
| ImageSelection.Linspace | eg3d/inversion/image_selection.py:21 | `torch.linspace(lo, hi, k)` has `k` points (end points and spacing in `LinspaceEnds` and `LinspaceStep`) |
| ImageSelection.LinspaceEnds | eg3d/inversion/image_selection.py:21 | `linspace(lo, hi, k)` starts at `lo` and ends at `hi` |
| ImageSelection.LinspaceStep | eg3d/inversion/image_selection.py:21 | consecutive linspace points differ by the step |
| ImageSelection.LinspaceSorted | eg3d/inversion/image_selection.py:21 | the linspace never decreases when `lo <= hi` |
| ImageSelection.TargetsSorted | eg3d/inversion/image_selection.py:17-21 | the target angles never decrease |
| ImageSelection.Selection | eg3d/inversion/image_selection.py:24-28 | the selection has one index per target, each a valid position in the image list |
| ImageSelection.NearestEach | eg3d/inversion/image_selection.py:24-27 | one valid view index per target angle, in target order |
| ImageSelection.SelectEvenly | eg3d/inversion/image_selection.py:12-28 | the loop returns the selection: `k` valid indices, index `j` nearest to target `j`; the image list must be non-empty |
| ImageSelection.SelectionIsNearest | eg3d/inversion/image_selection.py:24-28 | every selected index is the first view of least distance to its target angle |
| ImageSelection.SingleTarget | eg3d/inversion/image_selection.py:17-19 | with one target, the view chosen is the first view nearest pi/2, whatever the range of the angles |
| ImageSelection.SingleTargetIsNotMidpoint | eg3d/inversion/image_selection.py:17-19 | for angles 0 and 1, pi/2 picks view 1 while the midpoint of the range picks view 0, so one target is not the midpoint |
| ImageSelection.SelectionEndpoints | eg3d/inversion/image_selection.py:21-27 | with two or more targets, the first choice is the first view of minimum angle and the last choice is the first view of maximum angle |
| ImageSelection.SelectionEndsAgree | eg3d/inversion/image_selection.py:21-27 | any two selections of two or more views begin with the same view and end with the same view |
| ImageSelection.NearestMonotone | eg3d/inversion/image_selection.py:25-27 | a larger target never picks a view of smaller angle |
| ImageSelection.SelectionSorted | eg3d/inversion/image_selection.py:21-28 | the angles of the selected views are non-decreasing in output order |
| ImageSelection.EvenPositions | eg3d/inversion/image_selection.py:37-38 | element `j` is element `2j` of the input, and there are `ceil(n/2)` of them |
| ImageSelection.OddPositions | eg3d/inversion/image_selection.py:39-40 | element `j` is element `2j + 1` of the input, and there are `floor(n/2)` of them |
| ImageSelection.EvenPositionsSnoc | eg3d/inversion/image_selection.py:36-38 | appending an element extends the even positions exactly when it lands on an even position |
| ImageSelection.OddPositionsSnoc | eg3d/inversion/image_selection.py:36-40 | appending an element extends the odd positions exactly when it lands on an odd position |
| ImageSelection.Interleave | eg3d/inversion/image_selection.py:36-41 | interleaving a list with one shorter list has the sum of their lengths |
| ImageSelection.InterleavePositions | eg3d/inversion/image_selection.py:36-41 | interleaving the even and odd positions of an odd-length list gives back the list |
| ImageSelection.PositionsOfInterleave | eg3d/inversion/image_selection.py:36-41 | the even and odd positions of an interleaving are its two parts |
| ImageSelection.SplitByPosition | eg3d/inversion/image_selection.py:34-41 | the loop puts the even positions in `primary` and the odd ones in `interpolated`; the `i == len - 1` test adds nothing, and interleaving the two lists restores the input |
| ImageSelection.SelectEvenlyInterpolate | eg3d/inversion/image_selection.py:31-41 | the primary views are positions 0, 2, ..., 2k-2 and the interpolation views positions 1, 3, ..., 2k-3 of `select_evenly(images, 2k - 1)`, `k` and `k - 1` of them |
| ImageSelection.StepHalved | eg3d/inversion/image_selection.py:32-33 | the step of `2k - 1` points is half the step of `k` points |
| ImageSelection.LinspaceDoubled | eg3d/inversion/image_selection.py:32-33 | point `2j` of the `2k - 1` point linspace is point `j` of the `k` point one |
| ImageSelection.SelectionDoubled | eg3d/inversion/image_selection.py:32-33 | target `2j` of `2k - 1` picks the same view as target `j` of `k` |
| ImageSelection.PrimaryIsSelection | eg3d/inversion/image_selection.py:31-38 | the primary views of `select_evenly_interpolate(images, k)` are exactly `select_evenly(images, k)` |
| ImageSelection.DuplicatesAreKept | eg3d/inversion/image_selection.py:36-40 | for angles 0 and 1 and three targets, the five picks are 0, 0, 0, 1, 1: a view can repeat and be both primary and interpolation |
| Metrics.ZeroDepth | eg3d/inversion/metrics.py:88 | the empty slot is a 128 x 128 grid of zeros |
| Metrics.AxisIndex | eg3d/inversion/metrics.py:93 | a numpy index in `[-n, n)` addresses a position below `n`, counting from the end when negative |
| Metrics.DepthMetric.Valid | eg3d/inversion/metrics.py:87-94 | the table invariant: `n x n` slots of 128 x 128 images, each count between 0 and `n`, and the slots past a view's count still zero |
| Metrics.DepthMetric.constructor | eg3d/inversion/metrics.py:87-90 | the table is `n x n` slots, all zero, in a new array, and the counters are a new array of zeros, so no view holds samples; the table invariant holds |
| Metrics.DepthMetric.Update | eg3d/inversion/metrics.py:92-94 | `depth_image[0]` lands in slot `(v, old counter[v])`; counter `v` grows by one and the view's samples gain that image at the end; no other counter or slot changes; the invariant (counts within `n`, slots past the count still zero) is kept |
| Cli.Convert | eg3d/multi_inversion_multi_w.py:27-40 | a converted value has the option's type; integer texts parse as Python `int`, booleans accept click's true and false words |
| Cli.Show | eg3d/run_pipeline.py:24-35 | the f-string rendering of a value: text as it is, `str()` of an integer, `True`/`False` (read back by `ConvertShow`) |
| Cli.ConvertShow | eg3d/run_pipeline.py:24-35 | every value converts back from its f-string rendering to itself |
| Cli.SplitArg | eg3d/run_pipeline.py:24 | a word that splits gives a flag without `=` and a text that rebuild the word |
| Cli.Arg | eg3d/run_pipeline.py:24 | the word `--flag=raw` (split back by `SplitArgOfArg`) |
| Cli.SplitArgOfArg | eg3d/run_pipeline.py:24 | `--flag=raw` splits back into `flag` and `raw` when the flag has no `=` |
| Cli.Flags | eg3d/multi_inversion_multi_w.py:25-40 | the declared flags, one per declaration, in order |
| Cli.Passed | eg3d/multi_inversion_multi_w.py:24-40 | a found text comes from a `--flag=text` word among the arguments |
| Cli.PassedAbsent | eg3d/multi_inversion_multi_w.py:24-40 | an option that no word passes is not found |
| Cli.PassedLastWins | eg3d/multi_inversion_multi_w.py:24-40 | a repeated option keeps the text of its last `--flag=text` word, whatever came before it |
| Cli.Read | eg3d/multi_inversion_multi_w.py:25-40 | a read value has the declared type, or is the default of an option that was not passed |
| Cli.ReadEach | eg3d/multi_inversion_multi_w.py:24-56 | one value per declaration, each of its declared type when the defaults are well typed |
| Cli.ReadEachIff | eg3d/multi_inversion_multi_w.py:24-56 | reading all options succeeds with values `vs` exactly when each option reads as its value in `vs` |
| Cli.ReadAll | eg3d/multi_inversion_multi_w.py:24-56 | a successful parse gives one value per declared option, of the declared type |
| Cli.Args | eg3d/run_pipeline.py:24-35 | word `i` is `--` flag `i` `=` the rendering of value `i`, one word per pair |
| Cli.LookupOfDistinct | eg3d/run_pipeline.py:24-35 | with no repeated flag, every flag finds its own value |
| Cli.LookupAbsent | eg3d/run_pipeline.py:24-35 | a flag no pair names finds nothing |
| Cli.PassedOfArgs | eg3d/run_pipeline.py:24-35 | the text found in the words is the rendering of the value the pairs give the flag |
| Cli.ArgsAccepted | eg3d/run_pipeline.py:24-35 | words built from declared flags without `=` are all accepted |
| Cli.ReadOfArgs | eg3d/run_pipeline.py:24-35 | a passed value of the right type reads back as itself; an option not passed reads as its default, or fails when required |
| Cli.ReadAllOfArgs | eg3d/run_pipeline.py:24-35 | when each declared option reads as `vs[i]`, the whole parse yields `vs` |
| Cli.ReadPassed | eg3d/run_pipeline.py:24-35 | a passed option of the right type reads as the value passed |
| Cli.ReadDefault | eg3d/run_pipeline.py:24-35 | an option not passed reads as its default |
| Text.NatToString | eg3d/run_pipeline.py:26 | the decimal text is non-empty, all digits, and starts with `0` only for zero |
| Text.ParseNatOfNatToString | eg3d/run_pipeline.py:26 | the decimal text of a natural number reads back as that number |
| Text.IntToString | eg3d/multi_inversion_multi_w.py:60-61 | `str(n)` is non-empty, digits with a leading `-` exactly for negative `n` |
| Text.IntRoundTrip | eg3d/multi_inversion_multi_w.py:60-61 | `int(str(n)) == n` |
| Text.IntToStringAvoids | eg3d/multi_inversion_multi_w.py:60-61 | `str(n)` holds no character other than digits and `-` (so no `_` and no `/`) |
| Text.ParseNat | eg3d/multi_inversion_multi_w.py:27 | the value of a run of decimal digits (`ParseNatOfNatToString` reads back `str(n)`) |
| Text.ParseInt | eg3d/multi_inversion_multi_w.py:27 | `int()` accepts exactly a non-empty run of digits, optionally after one `-` or `+` |
| Text.BoolToString | eg3d/run_pipeline.py:30 | the f-string rendering of a boolean, `True` or `False` (read back by `ConvertShow`) |
| Text.Lower | eg3d/multi_inversion_multi_w.py:31 | lower-casing keeps the length and maps each character |
| Text.LastSegment | eg3d/multi_inversion_multi_w.py:65 | `split("/")[-1]` holds no `/`, is a suffix of the path, and is preceded by `/` when shorter than the path (it is empty when the path ends in `/`) |
| Text.LastSegmentAfterSlash | eg3d/multi_inversion_multi_w.py:68-69 | the last segment of `prefix/name` is `name` when `name` holds no `/` |
| Text.StripPrefix | eg3d/multi_inversion_multi_w.py:58-66 | a prefix comes off exactly when it is there, leaving the rest |
| Text.Span | eg3d/multi_inversion_multi_w.py:58-66 | the split before the first given character rebuilds the text and leaves no such character in front |
| Text.SpanOf | eg3d/multi_inversion_multi_w.py:58-66 | the split falls exactly where the character first occurs |
| PyList.Last | eg3d/multi_inversion_multi_w.py:110 | `xs[-1]` is an element of a non-empty list |
| PyList.TailSlice | eg3d/multi_inversion.py:96 | `xs[-n:]` is the last `min(n, len)` elements |
| PyList.LastSlice | eg3d/multi_inversion.py:96 | `xs[-1:]` is `[]` for an empty list and `[xs[-1]]` otherwise |
| Records.Keys | eg3d/multi_inversion_multi_w.py:124-138 | the keys of the record, one per entry, in order |
| Records.Get | eg3d/multi_inversion_multi_w.py:124-138 | a key is found exactly when it is a key of the record, with a value stored under it |
| Records.GetOfDistinct | eg3d/multi_inversion_multi_w.py:124-138 | with no repeated key, every key looks up its own value |
| Video.Frame | eg3d/multi_inversion_multi_w.py:164-171 | a frame has one panel per view, left to right; panel `i` shows view `i`'s target above latent `i` rendered with view `i`'s camera |
| Video.Repeat | eg3d/multi_inversion.py:144 | `n` copies of one latent |
| Video.RenderFrame | eg3d/multi_inversion_multi_w.py:164-171 | the inner loop builds exactly that frame |
| Video.TunedFrames | eg3d/multi_inversion_multi_w.py:172-182 | one frame per generator snapshot, each with one panel per view |
| Video.TunedFramesAt | eg3d/multi_inversion_multi_w.py:172-182 | tuning frame `j` renders the latents with snapshot `j` |
| Video.RenderTuned | eg3d/multi_inversion_multi_w.py:172-182 | the snapshot loop builds exactly those frames |
| MultiInversionMultiW.TypedIsDeclaredKinds | eg3d/multi_inversion_multi_w.py:25-40 | a value list is typed exactly when each value has the kind its option declares |
| MultiInversionMultiW.DeclaredFlags | eg3d/multi_inversion_multi_w.py:25-40 | the fourteen flags in decorator order; `network`, `target`, `outdir`, `downsampling`, `continue-w`, `use-interpolation` and `depth-reg` are exactly the required ones |
| MultiInversionMultiW.Values | eg3d/multi_inversion_multi_w.py:41-56 | the fourteen keyword arguments as typed values, in declaration order |
| MultiInversionMultiW.FromValues | eg3d/multi_inversion_multi_w.py:41-56 | rebuilding the keyword arguments from typed values and rendering them again gives the same values |
| MultiInversionMultiW.FromValuesOfValues | eg3d/multi_inversion_multi_w.py:41-56 | rendering the keyword arguments as values loses nothing |
| MultiInversionMultiW.DeclaredWellTyped | eg3d/multi_inversion_multi_w.py:27-40 | every default has its option's type |
| MultiInversionMultiW.ReadAllTyped | eg3d/multi_inversion_multi_w.py:24-56 | whatever click hands over has the declared types |
| MultiInversionMultiW.Parse | eg3d/multi_inversion_multi_w.py:24-56 | the command line yields options exactly when click accepts it, and then the options are the values click read |
| MultiInversionMultiW.Marker | eg3d/multi_inversion_multi_w.py:62-64 | an optional marker and what follows it rebuild the text |
| MultiInversionMultiW.MarkerRoundTrip | eg3d/multi_inversion_multi_w.py:62-64 | a marker is read back as present exactly when it was appended, as long as what follows differs from it in its third character |
| MultiInversionMultiW.ThirdOf | eg3d/multi_inversion_multi_w.py:62-64 | the third character after an optional marker is the marker's when present, else the rest's |
| MultiInversionMultiW.FeatureSuffix | eg3d/multi_inversion_multi_w.py:62-64 | the markers `_inter`, `_depth_reg`, `_without_norm_reg`, each present by its flag (decoded by `FeatureRoundTrip`) |
| MultiInversionMultiW.NameBody | eg3d/multi_inversion_multi_w.py:58-66 | the run name after its slash, from the rendered pieces in the source's order |
| MultiInversionMultiW.RunName | eg3d/multi_inversion_multi_w.py:57-66 | `desc`: `/time_multi_w_targets_n_iter_a_b[features]_data_d` (decoded by `RunNameRoundTrip`) |
| MultiInversionMultiW.FeatureRoundTrip | eg3d/multi_inversion_multi_w.py:62-66 | `_inter` is present iff interpolation is used, `_depth_reg` iff depth regularisation, `_without_norm_reg` iff norm regularisation is off, in that order; all three flags are read back |
| MultiInversionMultiW.RunNameRoundTrip | eg3d/multi_inversion_multi_w.py:57-66 | the run name `/time_multi_w_targets_n_iter_a_b[features]_data_d` reads back into the time stamp, the three counts, the three flags and the data index |
| MultiInversionMultiW.RunNameInjective | eg3d/multi_inversion_multi_w.py:57-66 | two runs get the same name only when they agree on every field the name records |
| MultiInversionMultiW.FeatureSuffixNoSlash | eg3d/multi_inversion_multi_w.py:62-64 | the feature markers hold no `/` |
| MultiInversionMultiW.NameBodyNoSlash | eg3d/multi_inversion_multi_w.py:58-66 | pieces without `/` give a name without `/` |
| MultiInversionMultiW.OutputDir | eg3d/multi_inversion_multi_w.py:68-69 | `outdir += desc` (a child folder of `outdir`, by `OutputDirIsChild`) |
| MultiInversionMultiW.OutputDirIsChild | eg3d/multi_inversion_multi_w.py:68-69 | the run directory starts with the given `outdir`, and its last path segment is the run name without its slash |
| MultiInversionMultiW.ConfigRecord | eg3d/multi_inversion_multi_w.py:123-138 | the record has thirteen entries |
| MultiInversionMultiW.ConfigRecordKeys | eg3d/multi_inversion_multi_w.py:123-138 | the keys are exactly the thirteen listed, in order, and `w_norm_reg` is not one of them |
| MultiInversionMultiW.ConfigRecordDistinct | eg3d/multi_inversion_multi_w.py:123-138 | no key occurs twice |
| MultiInversionMultiW.ConfigRecordLookup | eg3d/multi_inversion_multi_w.py:123-138 | reading the record back, each listed key finds its own entry |
| MultiInversionMultiW.ConfigRecordInjective | eg3d/multi_inversion_multi_w.py:123-138 | the record determines every option it lists, the time stamp and both durations |
| MultiInversionMultiW.ConfigOmitsWNormReg | eg3d/multi_inversion_multi_w.py:123-138 | runs differing only in norm regularisation, video saving, output folder or frame rate write the same record, which has no `w_norm_reg` entry, while a different norm flag gives a different run name |
| MultiInversionMultiW.TargetIndices | eg3d/multi_inversion_multi_w.py:87 | the primary views of `select_evenly_interpolate` are `num_targets` views, the same as `select_evenly(images, num_targets)` |
| MultiInversionMultiW.Pivots | eg3d/multi_inversion_multi_w.py:110 | pivotal tuning starts from the per-view latents of the last W step |
| MultiInversionMultiW.SavedLatent | eg3d/multi_inversion_multi_w.py:142 | the saved latent is the first per-view latent of the pivots |
| MultiInversionMultiW.Projection | eg3d/multi_inversion_multi_w.py:142-145 | `proj.png` renders the saved latent with the last generator snapshot and the camera of the first primary view |
| MultiInversionMultiW.WFrames | eg3d/multi_inversion_multi_w.py:163-171 | one frame per W step, one panel per view |
| MultiInversionMultiW.WFramesAt | eg3d/multi_inversion_multi_w.py:163-171 | W frame `j` renders the per-view latents of step `j` with the generator object `G` the script passed to both stages |
| MultiInversionMultiW.VideoFrames | eg3d/multi_inversion_multi_w.py:159-182 | the video has `len(projected_w_steps) + len(G_steps)` frames |
| MultiInversionMultiW.SaveVideo | eg3d/multi_inversion_multi_w.py:159-183 | the two frame loops build exactly the video's frames |
| MultiInversionMultiW.VideoLayout | eg3d/multi_inversion_multi_w.py:159-182 | W frames come first; in W frame `j`, panel `i` shows view `i` of `select_evenly(images, 5)` rendered from latent `i` of step `j`; in tuning frame `j`, snapshot `j` renders latent `i` of the last step |
| MultiInversionMultiW.ProjectionIsLastFramePanel | eg3d/multi_inversion_multi_w.py:142-177 | with two or more targets, `proj.png` is what the first panel of the last video frame renders |
| MultiInversionMultiW.OneTargetCameraDiffers | eg3d/multi_inversion_multi_w.py:145-160 | with one target, the projection's camera can differ from the first video view's (view 1 against view 0 for angles 0 and 1) |
| MultiInversion.TypedIsDeclaredKinds | eg3d/multi_inversion.py:25-37 | a value list is typed exactly when each value has the kind its option declares |
| MultiInversion.DeclaredFlags | eg3d/multi_inversion.py:25-37 | the eleven flags in decorator order; `network`, `target`, `outdir`, `downsampling` and `optimize-cam` are exactly the required ones |
| MultiInversion.Values | eg3d/multi_inversion.py:38-50 | the eleven keyword arguments as typed values, in declaration order |
| MultiInversion.FromValues | eg3d/multi_inversion.py:38-50 | rebuilding the keyword arguments from typed values and rendering them again gives the same values |
| MultiInversion.FromValuesOfValues | eg3d/multi_inversion.py:38-50 | rendering the keyword arguments as values loses nothing |
| MultiInversion.DeclaredWellTyped | eg3d/multi_inversion.py:27-37 | every default has its option's type |
| MultiInversion.ReadAllTyped | eg3d/multi_inversion.py:24-50 | whatever click hands over has the declared types |
| MultiInversion.Parse | eg3d/multi_inversion.py:24-50 | the command line yields options exactly when click accepts it, and then the options are the values click read |
| MultiInversion.NameBody | eg3d/multi_inversion.py:52-56 | the run name after its slash, from the rendered pieces in the source's order |
| MultiInversion.RunName | eg3d/multi_inversion.py:51-56 | `desc`: `/time_multiview_n_iter_a_b_data_d` (decoded by `RunNameRoundTrip`) |
| MultiInversion.RunNameRoundTrip | eg3d/multi_inversion.py:51-56 | the run name `/time_multiview_n_iter_a_b_data_d`, with no feature markers, reads back into the time stamp, the three counts and the data index |
| MultiInversion.RunNameInjective | eg3d/multi_inversion.py:51-56 | two runs get the same name only when they agree on every field the name records |
| MultiInversion.NameBodyNoSlash | eg3d/multi_inversion.py:52-56 | pieces without `/` give a name without `/` |
| MultiInversion.OutputDir | eg3d/multi_inversion.py:57-58 | `outdir += desc` (a child folder of `outdir`, by `OutputDirIsChild`) |
| MultiInversion.OutputDirIsChild | eg3d/multi_inversion.py:57-58 | the run directory starts with the given `outdir`, and its last path segment is the run name without its slash |
| MultiInversion.ConfigRecord | eg3d/multi_inversion.py:105-118 | the record has eleven entries |
| MultiInversion.ConfigRecordKeys | eg3d/multi_inversion.py:105-118 | the keys are exactly the eleven listed, in order, `optimize_cam` among them |
| MultiInversion.ConfigRecordDistinct | eg3d/multi_inversion.py:105-118 | no key occurs twice |
| MultiInversion.ConfigRecordLookup | eg3d/multi_inversion.py:105-118 | reading the record back, each listed key finds its own entry |
| MultiInversion.ConfigRecordInjective | eg3d/multi_inversion.py:105-118 | the record determines every option it lists, the time stamp and both durations |
| MultiInversion.Pivots | eg3d/multi_inversion.py:96 | pivotal tuning receives `[last W]`, or `[]` for an empty trajectory |
| MultiInversion.SavedLatent | eg3d/multi_inversion.py:122 | the saved latent is the one latent pivotal tuning started from |
| MultiInversion.Projection | eg3d/multi_inversion.py:122-124 | `proj.png` renders the saved latent with the last snapshot and the camera of `images[0]`, whichever views were selected |
| MultiInversion.WFrames | eg3d/multi_inversion.py:140-148 | one frame per W step, one panel per view |
| MultiInversion.WFramesAt | eg3d/multi_inversion.py:140-148 | W frame `j` renders the single latent of step `j` for every view |
| MultiInversion.VideoFrames | eg3d/multi_inversion.py:136-159 | the video has `len(projected_w_steps) + len(G_steps)` frames |
| MultiInversion.SaveVideo | eg3d/multi_inversion.py:136-160 | the two frame loops build exactly the video's frames |
| MultiInversion.VideoLayout | eg3d/multi_inversion.py:136-159 | five panels per frame for the views of `select_evenly(images, 5)`; W frame `j` renders step `j`'s latent in every panel; tuning frame `j` renders the last latent with snapshot `j` |
| MultiInversion.ProjectionIsLastFramePanelIff | eg3d/multi_inversion.py:122-154 | `proj.png` equals the first panel of the last video frame exactly when `images[0]` has the smallest angle |
| MultiInversion.TargetsAndVideoViews | eg3d/multi_inversion.py:76 | with two or more targets, the optimised views (`num_targets` of them) and the five video views begin and end with the same view |
| RunPipeline.MultiWWords | eg3d/run_pipeline.py:23-35 | the handler's pairs give the twelve `--flag=value` words, appended in the source's order |
| RunPipeline.MultiWPairs | eg3d/run_pipeline.py:24-35 | the twelve flag and value pairs the handler appends, in order (their flags, values and parse in the lemmas below) |
| RunPipeline.MultiWHandler.constructor | eg3d/run_pipeline.py:8-37 | `args` are the words of the twelve pairs, in order; the program is `python multi_inversion_multi_w.py` |
| RunPipeline.MultiWHandler.Command | eg3d/run_pipeline.py:38 | the command is `[python, program] + args` |
| RunPipeline.MultiWPairFlags | eg3d/run_pipeline.py:24-35 | pair `i` passes flag `i` of network, target, num-steps, num-steps-pti, outdir, num-targets, downsampling, continue-w, use-interpolation, depth-reg, w-norm-reg, save-video |
| RunPipeline.MultiWWellFormed | eg3d/run_pipeline.py:24-35 | the flags passed are declared by the target script, have no `=`, and none is passed twice |
| RunPipeline.MultiWAccepted | eg3d/run_pipeline.py:24-35 | every word names a flag `multi_inversion_multi_w.py` declares |
| RunPipeline.MultiWOmitsSeedAndFps | eg3d/run_pipeline.py:24-35 | `--seed` and `--fps` are never passed |
| RunPipeline.MultiWPairValues | eg3d/run_pipeline.py:24-35 | each pair carries the value the script should receive for its option |
| RunPipeline.MultiWReads | eg3d/run_pipeline.py:24-35 | each of the fourteen declared options reads as the handler's value, with seed 303 and 30 frames per second as defaults |
| RunPipeline.MultiWParses | eg3d/run_pipeline.py:23-37 | click accepts the handler's command line and hands `run_projection` exactly the handler's values, so every required option is passed |
| RunPipeline.SingleWWords | eg3d/run_pipeline.py:54-63 | the handler's pairs give the nine `--flag=value` words, appended in the source's order |
| RunPipeline.SingleWPairs | eg3d/run_pipeline.py:55-63 | the nine flag and value pairs the handler appends, in order (their flags, values and parse in the lemmas below) |
| RunPipeline.SingleWHandler.constructor | eg3d/run_pipeline.py:42-68 | `args` are the words of the nine pairs, in order; the program is `python multi_inversion.py` |
| RunPipeline.SingleWHandler.Command | eg3d/run_pipeline.py:69 | the command is `[python, program] + args` |
| RunPipeline.SingleWPairFlags | eg3d/run_pipeline.py:55-63 | pair `i` passes flag `i` of network, target, num-steps, num-steps-pti, outdir, num-targets, downsampling, optimize-cam, save-video |
| RunPipeline.SingleWWellFormed | eg3d/run_pipeline.py:55-63 | the flags passed are declared by the target script, have no `=`, and none is passed twice |
| RunPipeline.SingleWAccepted | eg3d/run_pipeline.py:55-63 | every word names a flag `multi_inversion.py` declares |
| RunPipeline.SingleWOmitsSeedAndFps | eg3d/run_pipeline.py:55-63 | `--seed` and `--fps` are never passed |
| RunPipeline.SingleWPairValues | eg3d/run_pipeline.py:55-63 | each pair carries the value the script should receive for its option |
| RunPipeline.SingleWReads | eg3d/run_pipeline.py:55-63 | each of the eleven declared options reads as the handler's value, with seed 303 and 30 frames per second as defaults |
| RunPipeline.SingleWParses | eg3d/run_pipeline.py:54-69 | click accepts the handler's command line and hands `run_projection` exactly the handler's values, including the required `optimize-cam` and `downsampling` |
| RunPipeline.MarkersDiffer | eg3d/multi_inversion_multi_w.py:58-59 | after a time stamp without `_`, the two name formats part at the seventh character (`_multi_w` against `_multiview_`) |
| RunPipeline.OutputDirsDiffer | eg3d/multi_inversion_multi_w.py:57-69 | runs of the two scripts with the same `outdir` never share a run directory |

## Left out

- Floating point: angles, linspace points and depth values are exact reals. `torch.linspace` computes in float32, so a rounding error can move a tie between two views. The end-point, tie-breaking and ordering facts hold in exact arithmetic only.
- ImageSelection.TargetAngles: pi/2 is the double `1.5707963267948966`; its conversion to a tensor is not modelled.
- The angles themselves come from `xz_angle()` in the image loader, which is not part of this model. They are an input sequence, and an image is just its index.
- One target is pi/2, not the midpoint of the observed range that one might expect. The model follows the code, and `ImageSelection.SingleTargetIsNotMidpoint` shows the two differ.
- An empty image list makes `torch.min` raise. The selection therefore requires a non-empty angle list. `select_evenly` with a negative `num_targets` (a negative `--num-targets`) asks linspace for a negative number of points, which raises, so the model takes `k` as a natural number. `select_evenly_interpolate` with `num_targets < 1` asks linspace for a negative number of points, which raises, so it requires `k >= 1`.
- Metrics.DepthMetric.Update: `depth_image[0].detach().cpu().numpy()` is the first element of the input list. The write requires a 128 x 128 image, a view index numpy accepts, and a free slot; numpy raises otherwise, and the model keeps these as preconditions. numpy broadcasting of other shapes is not modelled. The counter is an unbounded integer, not numpy's `int64`.
- The `Metrics` class, `DepthMetric.calc_mean_stddev` and `inversion/loss.py`: float statistics over network outputs, file writing.
- click itself:
  - only the `--flag=value` spelling the handlers use is read (not `--flag value`);
  - options are read by flag name, not by their Python parameter names;
  - help text, `metavar` and `show_default` are left out;
  - a word that is not a declared `--flag=value` word rejects the whole command line; click's own error messages are not modelled;
  - integer parsing accepts an optional `-` or `+`, then decimal digits (no spaces or `_`);
  - a BOOL text is lower-cased but not `strip()`ped first, so surrounding spaces are rejected; the handlers never produce them;
  - lower-casing is ASCII only, where Python's `str.lower` is Unicode-aware; no non-ASCII text lower-cases into one of click's true or false words, so the decision is the same.
- `project`, `project_pti`, network loading, `pickle`, `dnnlib`, `legacy`, the CUDA device, seeding and `SummaryWriter`: they are not part of this model. The W trajectory and the generator snapshots are uninterpreted inputs.
- The renderings are uninterpreted: `Synth(generator, latent, camera)` stands for `G.synthesis(...)`, and the pixel conversion to `uint8` is left out. The video writer is modelled as the list of frames it receives. The encoding, `fps` and the codec are left out.
- `MultiInversionMultiW.Pivots`, `SavedLatent`, `Projection`, `VideoFrames`: `projected_w_steps[-1]` raises on an empty trajectory, so these require at least one W step. `SavedLatent` and `Projection` also require the last step to hold a latent, since `projected_w_steps[-1][0]` raises otherwise. The multi-W video requires every step to hold a latent for each of the five video views, since `projected_w[i]` raises otherwise.
- `cur_time` from `time.strftime` and the two stage durations from `perf_counter` are parameters. The run-name round trip assumes the time stamp holds no `_`, and the child-directory lemma assumes it holds no `/`. `%Y%m%d-%H%M` holds neither.
- Files and processes: `os.makedirs`, `json.dump`'s text format (the record is an ordered list of key/value pairs), `np.savez`, `PIL` saves, `subprocess.run` in the handlers, the `CUDA_VISIBLE_DEVICES` setting and the `__main__` blocks.
- RunPipeline.MultiWHandler.constructor: the words are appended to a local list, which is then stored in `args`. In the source, the appends go to `self.args` itself.
- MultiInversionMultiW.Projection: `G_steps[-1]` raises when pivotal tuning returns no snapshot, so it requires `|gSteps| > 0`; the IndexError itself is not modelled.
- `MultiInversion.SavedLatent`, `VideoFrames`, `SaveVideo`, `VideoLayout`: these require at least one W step. The script never reaches them with an empty trajectory, because `projected_w_steps[-1]` at `multi_inversion.py` line 122 raises first.
- MultiInversion.Projection: `projected_w_steps[-1]` and `G_steps[-1]` raise on an empty trajectory or an empty snapshot list, so it requires `|wSteps| > 0` and `|gSteps| > 0`; the IndexError itself is not modelled.
- The generator `G` that renders the W frames is the object the script passed to both `project` and `project_pti`. `project_pti` is not part of this model, so the model does not decide whether tuning changes that object in place; the W frames are rendered by `Loaded`, an uninterpreted generator.

/**
 * `multi_inversion_multi_w.py`, the entry script that fits one latent per
 * selected view: its options, the name of the run directory, the
 * `config.json` record, which latents are handed on and saved, and the layout
 * of the progress video.
 *
 * The optimisation stages `project` and `project_pti` are not modelled:
 * their results, the W trajectory (one list of per-view latents per step)
 * and the generator snapshots, are inputs.
 */
module MultiInversionMultiW {
  import opened Wrappers
  import opened Text
  import opened PyList
  import opened Cli
  import opened Records
  import opened Video
  import opened ImageSelection

  /** The options of `run_projection`, in the order they are declared. */
  datatype Options = Options(
    networkPkl: string,
    targetFname: string,
    numSteps: int,
    numStepsPti: int,
    seed: int,
    saveVideo: bool,
    outdir: string,
    fps: int,
    numTargets: int,
    downsampling: bool,
    continueW: string,
    useInterpolation: bool,
    depthReg: bool,
    wNormReg: bool)

  /** The `click.option` declarations: types, required options and defaults. */
  const Declared: seq<Decl> := [
    Decl("network", KText, Required),
    Decl("target", KText, Required),
    Decl("num-steps", KInt, Default(VInt(500))),
    Decl("num-steps-pti", KInt, Default(VInt(350))),
    Decl("seed", KInt, Default(VInt(303))),
    Decl("save-video", KBool, Default(VBool(false))),
    Decl("outdir", KText, Required),
    Decl("fps", KInt, Default(VInt(30))),
    Decl("num-targets", KInt, Default(VInt(10))),
    Decl("downsampling", KBool, Required),
    Decl("continue-w", KText, Required),
    Decl("use-interpolation", KBool, Required),
    Decl("depth-reg", KBool, Required),
    Decl("w-norm-reg", KBool, Default(VBool(true)))]

  /**
   * The fourteen flags in decorator order; seven of them are `required=True`,
   * the rest have defaults.
   */
  lemma DeclaredFlags()
    ensures Flags(Declared) == ["network", "target", "num-steps", "num-steps-pti", "seed", "save-video", "outdir",
                                "fps", "num-targets", "downsampling", "continue-w", "use-interpolation", "depth-reg",
                                "w-norm-reg"]
    ensures forall i :: 0 <= i < |Declared| ==>
      (Declared[i].presence.Required? <==>
       Declared[i].flag in {"network", "target", "outdir", "downsampling", "continue-w", "use-interpolation", "depth-reg"})
  {
  }

  /** One value of the declared type for each declared option, position by position. */
  predicate Typed(vs: seq<Value>) {
    && |vs| == 14
    && vs[0].VText? && vs[1].VText? && vs[2].VInt? && vs[3].VInt? && vs[4].VInt? && vs[5].VBool?
    && vs[6].VText? && vs[7].VInt? && vs[8].VInt? && vs[9].VBool? && vs[10].VText? && vs[11].VBool?
    && vs[12].VBool? && vs[13].VBool?
  }

  /** `Typed` is having the declared kinds. */
  lemma TypedIsDeclaredKinds(vs: seq<Value>)
    ensures Typed(vs) <==> |vs| == |Declared| && forall i :: 0 <= i < |vs| ==> HasKind(vs[i], Declared[i].kind)
  {
    if |vs| == |Declared| && forall i :: 0 <= i < |vs| ==> HasKind(vs[i], Declared[i].kind) {
      assert HasKind(vs[0], Declared[0].kind) && HasKind(vs[13], Declared[13].kind);
    }
  }

  /** The options as the values of the declared options, in order. */
  function Values(o: Options): (vs: seq<Value>)
    ensures Typed(vs)
  {
    var vs := [VText(o.networkPkl), VText(o.targetFname), VInt(o.numSteps), VInt(o.numStepsPti), VInt(o.seed),
               VBool(o.saveVideo), VText(o.outdir), VInt(o.fps), VInt(o.numTargets), VBool(o.downsampling),
               VText(o.continueW), VBool(o.useInterpolation), VBool(o.depthReg), VBool(o.wNormReg)];
    assert vs[0].VText? && vs[1].VText? && vs[2].VInt? && vs[3].VInt? && vs[4].VInt?;
    assert vs[5].VBool? && vs[6].VText? && vs[7].VInt? && vs[8].VInt? && vs[9].VBool?;
    vs
  }

  /** The keyword arguments `run_projection` receives for the declared options' values. */
  function FromValues(vs: seq<Value>): (o: Options)
    requires Typed(vs)
    ensures Values(o) == vs
  {
    Options(vs[0].text, vs[1].text, vs[2].number, vs[3].number, vs[4].number, vs[5].flag, vs[6].text,
            vs[7].number, vs[8].number, vs[9].flag, vs[10].text, vs[11].flag, vs[12].flag, vs[13].flag)
  }

  /** Rendering options as values loses nothing. */
  lemma FromValuesOfValues(o: Options)
    ensures FromValues(Values(o)) == o
  {
  }

  lemma DeclaredWellTyped()
    ensures forall i :: 0 <= i < |Declared| ==> WellTyped(Declared[i])
  {
  }

  /** The options the command line `args` yields, or nothing when click rejects it. */
  function Parse(args: seq<string>): (r: Option<Options>)
    ensures r.Some? <==> ReadAll(Declared, args).Some?
    ensures r.Some? ==> ReadAll(Declared, args) == Some(Values(r.value))
  {
    ReadAllTyped(args);
    var vs :- ReadAll(Declared, args);
    Some(FromValues(vs))
  }

  /** What click hands over has the declared types. */
  lemma ReadAllTyped(args: seq<string>)
    ensures ReadAll(Declared, args).Some? ==> Typed(ReadAll(Declared, args).value)
  {
    DeclaredWellTyped();
    if ReadAll(Declared, args).Some? {
      TypedIsDeclaredKinds(ReadAll(Declared, args).value);
    }
  }

  /** The optional parts of the run name, in their fixed order. */
  function FeatureSuffix(useInterpolation: bool, depthReg: bool, wNormReg: bool): string {
    (if useInterpolation then "_inter" else "")
    + (if depthReg then "_depth_reg" else "")
    + (if !wNormReg then "_without_norm_reg" else "")
  }

  /** Strips `word` from the front of `s` if it is there, saying whether it was. */
  function Marker(word: string, s: string): (r: (bool, string))
    ensures s == (if r.0 then word else "") + r.1
  {
    match StripPrefix(word, s)
    case Some(rest) => (true, rest)
    case None => (false, s)
  }

  /** Reads the optional parts back off the front of `s`. */
  function DecodeFeatures(s: string): (bool, bool, bool, string) {
    var (inter, r1) := Marker("_inter", s);
    var (depth, r2) := Marker("_depth_reg", r1);
    var (withoutNorm, r3) := Marker("_without_norm_reg", r2);
    (inter, depth, !withoutNorm, r3)
  }

  /**
   * A marker is read back exactly when it is there, when what follows it
   * differs from it in the third character.
   */
  lemma MarkerRoundTrip(word: string, present: bool, s: string)
    requires |word| > 2 && |s| > 2 && word[2] != s[2]
    ensures Marker(word, (if present then word else "") + s) == (present, s)
  {
    if present {
      StripPrefixOf(word, s);
    } else {
      assert "" + s == s;
      if |word| <= |s| {
        assert s[..|word|][2] == s[2];
      }
    }
  }

  /**
   * `"_inter"` is present exactly when interpolation is used, `"_depth_reg"`
   * exactly when depth regularisation is, and `"_without_norm_reg"` exactly
   * when the norm regularisation is off: the flags are read back from the
   * suffix whatever follows it, as long as that starts with `"_data_"`.
   */
  lemma FeatureRoundTrip(useInterpolation: bool, depthReg: bool, wNormReg: bool, rest: string)
    requires StartsWith("_data_", rest)
    ensures DecodeFeatures(FeatureSuffix(useInterpolation, depthReg, wNormReg) + rest) == (useInterpolation, depthReg, wNormReg, rest)
  {
    var x := if useInterpolation then "_inter" else "";
    var y := if depthReg then "_depth_reg" else "";
    var z := if !wNormReg then "_without_norm_reg" else "";
    var c := z + rest;
    var b := y + c;
    assert FeatureSuffix(useInterpolation, depthReg, wNormReg) + rest == x + b by {
      Regroup(x, y, z, rest);
    }
    assert |rest| > 2 && rest[2] == 'a' by {
      assert rest[..6][2] == 'a';
    }
    assert "_inter"[2] == 'n' && "_depth_reg"[2] == 'e' && "_without_norm_reg"[2] == 'i';
    ThirdOf("_without_norm_reg", !wNormReg, rest);
    ThirdOf("_depth_reg", depthReg, c);
    MarkerRoundTrip("_inter", useInterpolation, b);
    MarkerRoundTrip("_depth_reg", depthReg, c);
    MarkerRoundTrip("_without_norm_reg", !wNormReg, rest);
  }

  lemma Regroup(x: string, y: string, z: string, r: string)
    ensures x + y + z + r == x + (y + (z + r))
  {
  }

  /** The third character after an optional marker. */
  lemma ThirdOf(word: string, present: bool, s: string)
    requires |word| > 2 && |s| > 2
    ensures var t := (if present then word else "") + s; |t| > 2 && t[2] == if present then word[2] else s[2]
  {
  }

  /**
   * `desc`: the name of the run directory, made below `outdir`. The pieces
   * are those `desc +=` appends, in order; the grouping is immaterial.
   */
  function RunName(o: Options, curTime: string): string {
    "/" + NameBody(curTime, IntToString(o.numTargets), IntToString(o.numSteps), IntToString(o.numStepsPti),
                   FeatureSuffix(o.useInterpolation, o.depthReg, o.wNormReg), LastSegment(o.targetFname))
  }

  /** The run name after its slash, from the rendered pieces. */
  function NameBody(curTime: string, n: string, a: string, b: string, features: string, data: string): string {
    curTime + ("_multi_w" + ("_targets_" + (n + ("_iter_" + (a + ("_" + (b + (features + ("_data_" + data)))))))))
  }

  /** What the run name records. */
  datatype RunFields = RunFields(
    curTime: string,
    numTargets: int,
    numSteps: int,
    numStepsPti: int,
    useInterpolation: bool,
    depthReg: bool,
    wNormReg: bool,
    dataIndex: string)

  function Fields(o: Options, curTime: string): RunFields {
    RunFields(curTime, o.numTargets, o.numSteps, o.numStepsPti, o.useInterpolation, o.depthReg, o.wNormReg, LastSegment(o.targetFname))
  }

  /** Reads a run name back into the fields it records. */
  function ParseRunName(name: string): Option<RunFields> {
    var r0 :- StripPrefix("/", name);
    var (curTime, r1) := Span(r0, '_');
    var r1a :- StripPrefix("_multi_w", r1);
    var r2 :- StripPrefix("_targets_", r1a);
    var (n, r3) := Span(r2, '_');
    var numTargets :- ParseInt(n);
    var r4 :- StripPrefix("_iter_", r3);
    var (a, r5) := Span(r4, '_');
    var numSteps :- ParseInt(a);
    var r6 :- StripPrefix("_", r5);
    var (b, r7) := Span(r6, '_');
    var numStepsPti :- ParseInt(b);
    var (inter, depth, norm, r8) := DecodeFeatures(r7);
    var dataIndex :- StripPrefix("_data_", r8);
    Some(RunFields(curTime, numTargets, numSteps, numStepsPti, inter, depth, norm, dataIndex))
  }

  /**
   * The run name can be read back: it records the time stamp, the three
   * counts, the three feature flags and the data index, so runs that differ
   * in any of them get different directories. The time stamp must hold no
   * `_`, as `%Y%m%d-%H%M` does not.
   */
  lemma RunNameRoundTrip(o: Options, curTime: string)
    requires '_' !in curTime
    ensures ParseRunName(RunName(o, curTime)) == Some(Fields(o, curTime))
  {
    var n, a, b := IntToString(o.numTargets), IntToString(o.numSteps), IntToString(o.numStepsPti);
    IntToStringAvoids(o.numTargets, '_');
    IntToStringAvoids(o.numSteps, '_');
    IntToStringAvoids(o.numStepsPti, '_');
    IntRoundTrip(o.numTargets);
    IntRoundTrip(o.numSteps);
    IntRoundTrip(o.numStepsPti);
    var d := LastSegment(o.targetFname);
    var r8 := "_data_" + d;
    var r7 := FeatureSuffix(o.useInterpolation, o.depthReg, o.wNormReg) + r8;
    var r6 := b + r7;
    var r5 := "_" + r6;
    var r4 := a + r5;
    var r3 := "_iter_" + r4;
    var r2 := n + r3;
    var r1a := "_targets_" + r2;
    var r1 := "_multi_w" + r1a;
    var r0 := curTime + r1;
    StripPrefixOf("/", r0);
    SpanOf(curTime, r1, '_');
    StripPrefixOf("_multi_w", r1a);
    StripPrefixOf("_targets_", r2);
    SpanOf(n, r3, '_');
    StripPrefixOf("_iter_", r4);
    SpanOf(a, r5, '_');
    StripPrefixOf("_", r6);
    StripPrefixOf("_data_", d);
    FeatureRoundTrip(o.useInterpolation, o.depthReg, o.wNormReg, r8);
    assert r7 == [] || r7[0] == '_' by {
      assert r8[0] == '_';
    }
    SpanOf(b, r7, '_');
  }

  /** Two runs share a directory name only when they agree on every field it records. */
  lemma RunNameInjective(o1: Options, t1: string, o2: Options, t2: string)
    requires '_' !in t1 && '_' !in t2
    requires RunName(o1, t1) == RunName(o2, t2)
    ensures Fields(o1, t1) == Fields(o2, t2)
  {
    RunNameRoundTrip(o1, t1);
    RunNameRoundTrip(o2, t2);
  }

  /** `outdir += desc`: the run directory. */
  function OutputDir(o: Options, curTime: string): string {
    o.outdir + RunName(o, curTime)
  }

  /**
   * The run directory is a single new folder inside the given `outdir`:
   * `outdir` is a prefix, and the last path segment is the run name without
   * its leading slash. The time stamp must hold no `/`.
   */
  lemma OutputDirIsChild(o: Options, curTime: string)
    requires '/' !in curTime
    ensures StartsWith(o.outdir, OutputDir(o, curTime))
    ensures LastSegment(OutputDir(o, curTime)) == RunName(o, curTime)[1..]
  {
    var n, a, b := IntToString(o.numTargets), IntToString(o.numSteps), IntToString(o.numStepsPti);
    var f, d := FeatureSuffix(o.useInterpolation, o.depthReg, o.wNormReg), LastSegment(o.targetFname);
    var rest := NameBody(curTime, n, a, b, f, d);
    assert ("/" + rest)[1..] == rest;
    assert (o.outdir + ("/" + rest))[..|o.outdir|] == o.outdir;
    IntToStringAvoids(o.numTargets, '/');
    IntToStringAvoids(o.numSteps, '/');
    IntToStringAvoids(o.numStepsPti, '/');
    FeatureSuffixNoSlash(o.useInterpolation, o.depthReg, o.wNormReg);
    NameBodyNoSlash(curTime, n, a, b, f, d);
    LastSegmentOfChild(o.outdir, rest);
  }

  lemma FeatureSuffixNoSlash(useInterpolation: bool, depthReg: bool, wNormReg: bool)
    ensures '/' !in FeatureSuffix(useInterpolation, depthReg, wNormReg)
  {
  }

  /** Pieces without a slash make a run name body without one. */
  lemma NameBodyNoSlash(curTime: string, n: string, a: string, b: string, features: string, data: string)
    requires '/' !in curTime && '/' !in n && '/' !in a && '/' !in b && '/' !in features && '/' !in data
    ensures '/' !in NameBody(curTime, n, a, b, features, data)
  {
  }

  /** The `config.json` record, with the two stage durations as inputs. */
  function ConfigRecord(o: Options, curTime: string, timeW: real, timePti: real): (rec: Record)
    ensures |rec| == 13
  {
    [("net", JStr(o.networkPkl)),
     ("target_fname", JStr(o.targetFname)),
     ("seed", JInt(o.seed)),
     ("num_steps", JInt(o.numSteps)),
     ("num_steps_pti", JInt(o.numStepsPti)),
     ("num_targets", JInt(o.numTargets)),
     ("downsampling", JBool(o.downsampling)),
     ("time", JStr(curTime)),
     ("time_w", JNum(timeW)),
     ("time_pti", JNum(timePti)),
     ("use_interpolation", JBool(o.useInterpolation)),
     ("continue_w", JStr(o.continueW)),
     ("depth_reg", JBool(o.depthReg))]
  }

  const ConfigKeys: seq<string> := [
    "net", "target_fname", "seed", "num_steps", "num_steps_pti", "num_targets", "downsampling",
    "time", "time_w", "time_pti", "use_interpolation", "continue_w", "depth_reg"]

  /** The record has exactly the thirteen keys, in order; the norm regularisation flag is not among them. */
  lemma ConfigRecordKeys(o: Options, curTime: string, timeW: real, timePti: real)
    ensures Keys(ConfigRecord(o, curTime, timeW, timePti)) == ConfigKeys
    ensures "w_norm_reg" !in ConfigKeys
  {
    var ks := Keys(ConfigRecord(o, curTime, timeW, timePti));
    assert ks == ConfigKeys;
  }

  /** No key occurs twice. */
  lemma ConfigRecordDistinct(o: Options, curTime: string, timeW: real, timePti: real)
    ensures DistinctKeys(ConfigRecord(o, curTime, timeW, timePti))
  {
  }

  /**
   * The record determines every option it lists, the time stamp and the
   * two durations.
   */
  lemma ConfigRecordInjective(o1: Options, t1: string, w1: real, p1: real, o2: Options, t2: string, w2: real, p2: real)
    requires ConfigRecord(o1, t1, w1, p1) == ConfigRecord(o2, t2, w2, p2)
    ensures o1.networkPkl == o2.networkPkl && o1.targetFname == o2.targetFname && o1.seed == o2.seed
    ensures o1.numSteps == o2.numSteps && o1.numStepsPti == o2.numStepsPti && o1.numTargets == o2.numTargets
    ensures o1.downsampling == o2.downsampling && o1.useInterpolation == o2.useInterpolation
    ensures o1.continueW == o2.continueW && o1.depthReg == o2.depthReg
    ensures t1 == t2 && w1 == w2 && p1 == p2
  {
    var r1, r2 := ConfigRecord(o1, t1, w1, p1), ConfigRecord(o2, t2, w2, p2);
    assert r1[0].1 == r2[0].1 && r1[1].1 == r2[1].1 && r1[2].1 == r2[2].1 && r1[3].1 == r2[3].1;
    assert r1[4].1 == r2[4].1 && r1[5].1 == r2[5].1 && r1[6].1 == r2[6].1 && r1[7].1 == r2[7].1;
    assert r1[8].1 == r2[8].1 && r1[9].1 == r2[9].1 && r1[10].1 == r2[10].1 && r1[11].1 == r2[11].1;
    assert r1[12].1 == r2[12].1;
  }

  /** Reading `config.json` back: each listed key finds its own entry. */
  lemma ConfigRecordLookup(o: Options, curTime: string, timeW: real, timePti: real, i: nat)
    requires i < |ConfigKeys|
    ensures Get(ConfigRecord(o, curTime, timeW, timePti), ConfigKeys[i]) == Some(ConfigRecord(o, curTime, timeW, timePti)[i].1)
  {
    ConfigRecordKeys(o, curTime, timeW, timePti);
    ConfigRecordDistinct(o, curTime, timeW, timePti);
    GetOfDistinct(ConfigRecord(o, curTime, timeW, timePti), i);
  }

  /**
   * The options the record leaves out: runs that differ only in norm
   * regularisation, video saving, output folder or frame rate write the
   * same record, which has no `w_norm_reg` entry, while the norm flag
   * still shows in the run name.
   */
  lemma ConfigOmitsWNormReg(o: Options, curTime: string, timeW: real, timePti: real,
                            wNormReg: bool, saveVideo: bool, outdir: string, fps: int)
    ensures ConfigRecord(o.(wNormReg := wNormReg, saveVideo := saveVideo, outdir := outdir, fps := fps), curTime, timeW, timePti)
         == ConfigRecord(o, curTime, timeW, timePti)
    ensures Get(ConfigRecord(o, curTime, timeW, timePti), "w_norm_reg").None?
    ensures '_' !in curTime && wNormReg != o.wNormReg ==> RunName(o.(wNormReg := wNormReg), curTime) != RunName(o, curTime)
  {
    ConfigRecordKeys(o, curTime, timeW, timePti);
    if '_' !in curTime && wNormReg != o.wNormReg {
      if RunName(o.(wNormReg := wNormReg), curTime) == RunName(o, curTime) {
        RunNameInjective(o.(wNormReg := wNormReg), curTime, o, curTime);
      }
    }
  }

  /** `select_evenly_interpolate(images, num_targets)`'s primary views. */
  function TargetIndices(angles: seq<real>, numTargets: nat): (r: seq<nat>)
    requires |angles| > 0 && numTargets >= 1
    ensures |r| == numTargets
    ensures r == Selection(angles, numTargets)
  {
    PrimaryIsSelection(angles, numTargets);
    EvenPositions(Selection(angles, 2 * numTargets - 1))
  }

  /** `w_pivots=projected_w_steps[-1]`: pivotal tuning starts from the last step's per-view latents. */
  function Pivots<W>(wSteps: seq<seq<W>>): (p: seq<W>)
    requires |wSteps| > 0
    ensures p == wSteps[|wSteps| - 1]
  {
    Last(wSteps)
  }

  /** `projected_w = projected_w_steps[-1][0]`: the saved latent is the first view's of the last step. */
  function SavedLatent<W>(wSteps: seq<seq<W>>): (w: W)
    requires |wSteps| > 0 && |Last(wSteps)| > 0
    ensures w == Pivots(wSteps)[0]
  {
    Last(wSteps)[0]
  }

  /**
   * The rendering saved as `proj.png`: the last generator snapshot renders
   * the saved latent with the camera of the first primary view.
   */
  function Projection<W, G>(angles: seq<real>, numTargets: nat, wSteps: seq<seq<W>>, gSteps: seq<G>): (s: Synth<W, G>)
    requires |angles| > 0 && numTargets >= 1
    requires |wSteps| > 0 && |Last(wSteps)| > 0 && |gSteps| > 0
    ensures s.gen == Tuned(Last(gSteps)) && s.latent == SavedLatent(wSteps)
    ensures s.camera == Selection(angles, numTargets)[0]
  {
    Synth(Tuned(Last(gSteps)), SavedLatent(wSteps), TargetIndices(angles, numTargets)[0])
  }

  /** The number of views in every video frame: `select_evenly(images, 5)`. */
  const VideoViews: nat := 5

  /** The frames of the W phase: step `j` renders its latent `i` for view `i`. */
  function WFrames<W, G>(wSteps: seq<seq<W>>, views: seq<nat>): (fs: seq<seq<Panel<W, G>>>)
    requires forall j :: 0 <= j < |wSteps| ==> |wSteps[j]| >= |views|
    ensures |fs| == |wSteps|
    ensures forall j :: 0 <= j < |fs| ==> |fs[j]| == |views|
  {
    if wSteps == [] then []
    else
      var n := |wSteps| - 1;
      WFrames(wSteps[..n], views) + [Frame(Loaded, wSteps[n], views)]
  }

  lemma {:induction false} WFramesAt<W, G>(wSteps: seq<seq<W>>, views: seq<nat>, j: nat)
    requires forall j :: 0 <= j < |wSteps| ==> |wSteps[j]| >= |views|
    requires j < |wSteps|
    ensures WFrames<W, G>(wSteps, views)[j] == Frame(Loaded, wSteps[j], views)
  {
    if j < |wSteps| - 1 {
      WFramesAt<W, G>(wSteps[..|wSteps| - 1], views, j);
    }
  }

  /** The whole video: the W-phase frames, then the tuning frames, which render the last step's latents. */
  function VideoFrames<W, G>(angles: seq<real>, wSteps: seq<seq<W>>, gSteps: seq<G>): (fs: seq<seq<Panel<W, G>>>)
    requires |angles| > 0 && |wSteps| > 0
    requires forall j :: 0 <= j < |wSteps| ==> |wSteps[j]| >= VideoViews
    ensures |fs| == |wSteps| + |gSteps|
  {
    var views := Selection(angles, VideoViews);
    WFrames(wSteps, views) + TunedFrames(Last(wSteps), views, gSteps)
  }

  /** The `if save_video:` block: the two frame loops, each frame built view by view. */
  method SaveVideo<W, G>(angles: seq<real>, wSteps: seq<seq<W>>, gSteps: seq<G>) returns (frames: seq<seq<Panel<W, G>>>)
    requires |angles| > 0 && |wSteps| > 0
    requires forall j :: 0 <= j < |wSteps| ==> |wSteps[j]| >= VideoViews
    ensures frames == VideoFrames(angles, wSteps, gSteps)
  {
    var views := SelectEvenly(angles, VideoViews);
    frames := [];
    for j := 0 to |wSteps|
      invariant frames == WFrames(wSteps[..j], views)
    {
      var frame := RenderFrame(Loaded, wSteps[j], views);
      assert wSteps[..j + 1][..j] == wSteps[..j] && wSteps[..j + 1][j] == wSteps[j];
      assert WFrames(wSteps[..j + 1], views) == WFrames(wSteps[..j], views) + [frame];
      frames := frames + [frame];
    }
    assert wSteps[..|wSteps|] == wSteps;
    var tuned := RenderTuned(Last(wSteps), views, gSteps);
    frames := frames + tuned;
  }

  /**
   * The video has one frame per W step followed by one per generator
   * snapshot. In W frame `j`, panel `i` shows view `i` of `select_evenly(images, 5)`
   * rendered by the script's generator object `G` from latent `i` of step `j`. In tuning
   * frame `j`, panel `i` shows snapshot `j` rendering latent `i` of the last step.
   */
  lemma VideoLayout<W, G>(angles: seq<real>, wSteps: seq<seq<W>>, gSteps: seq<G>)
    requires |angles| > 0 && |wSteps| > 0
    requires forall j :: 0 <= j < |wSteps| ==> |wSteps[j]| >= VideoViews
    ensures var fs := VideoFrames<W, G>(angles, wSteps, gSteps); var views := Selection(angles, VideoViews);
      && |fs| == |wSteps| + |gSteps|
      && (forall j, i :: 0 <= j < |wSteps| && 0 <= i < VideoViews ==>
            fs[j][i] == Panel(views[i], Synth(Loaded, wSteps[j][i], views[i])))
      && (forall j, i :: 0 <= j < |gSteps| && 0 <= i < VideoViews ==>
            fs[|wSteps| + j][i] == Panel(views[i], Synth(Tuned(gSteps[j]), Last(wSteps)[i], views[i])))
  {
    var views := Selection(angles, VideoViews);
    var fs := VideoFrames<W, G>(angles, wSteps, gSteps);
    forall j | 0 <= j < |wSteps|
      ensures fs[j] == Frame(Loaded, wSteps[j], views)
    {
      WFramesAt<W, G>(wSteps, views, j);
    }
    forall j | 0 <= j < |gSteps|
      ensures fs[|wSteps| + j] == Frame(Tuned(gSteps[j]), Last(wSteps), views)
    {
      TunedFramesAt(Last(wSteps), views, gSteps, j);
    }
  }

  /**
   * With two or more targets the saved projection is what the first panel
   * of the last video frame renders: the first primary view and the first
   * of the five video views are both the first view of least angle.
   */
  lemma ProjectionIsLastFramePanel<W, G>(angles: seq<real>, numTargets: nat, wSteps: seq<seq<W>>, gSteps: seq<G>)
    requires |angles| > 0 && numTargets >= 2
    requires |wSteps| > 0 && |gSteps| > 0
    requires forall j :: 0 <= j < |wSteps| ==> |wSteps[j]| >= VideoViews
    ensures Projection(angles, numTargets, wSteps, gSteps) == VideoFrames(angles, wSteps, gSteps)[|wSteps| + |gSteps| - 1][0].synth
  {
    VideoLayout<W, G>(angles, wSteps, gSteps);
    SelectionEndsAgree(angles, numTargets, VideoViews);
  }

  /**
   * With one target the projection's camera need not be the first video
   * view's: for angles 0 and 1 the target nearest pi/2 is view 1, while the
   * video starts at view 0.
   */
  lemma OneTargetCameraDiffers()
    ensures TargetIndices([0.0, 1.0], 1)[0] == 1
    ensures Selection([0.0, 1.0], VideoViews)[0] == 0
  {
    SingleTargetIsNotMidpoint();
    DuplicatesAreKept();
  }
}

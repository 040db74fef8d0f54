/**
 * `multi_inversion.py`, the entry script that fits a single latent to all
 * selected views: its options, the name of the run directory, the
 * `config.json` record, which latents are handed on and saved, and the layout
 * of the progress video.
 *
 * The optimisation stages `project` and `project_pti` are not modelled:
 * their results, the W trajectory (one latent per step) and the generator
 * snapshots, are inputs.
 */
module MultiInversion {
  import opened Wrappers
  import opened Text
  import opened PyList
  import opened Cli
  import opened Records
  import opened Video
  import opened ImageSelection

  /** The options of `run_projection`, in the order they are declared. */
  datatype Options = Options(
    networkPkl: string,
    targetFname: string,
    numSteps: int,
    numStepsPti: int,
    seed: int,
    saveVideo: bool,
    outdir: string,
    fps: int,
    numTargets: int,
    downsampling: bool,
    optimizeCam: bool)

  /**
   * The `click.option` declarations: types, required options and defaults.
   * `--fps` and `--num-targets` have no `type=`, so click takes the type of
   * their integer defaults.
   */
  const Declared: seq<Decl> := [
    Decl("network", KText, Required),
    Decl("target", KText, Required),
    Decl("num-steps", KInt, Default(VInt(500))),
    Decl("num-steps-pti", KInt, Default(VInt(350))),
    Decl("seed", KInt, Default(VInt(303))),
    Decl("save-video", KBool, Default(VBool(false))),
    Decl("outdir", KText, Required),
    Decl("fps", KInt, Default(VInt(30))),
    Decl("num-targets", KInt, Default(VInt(10))),
    Decl("downsampling", KBool, Required),
    Decl("optimize-cam", KBool, Required)]

  /**
   * The eleven flags in decorator order; five of them are `required=True`,
   * the rest have defaults.
   */
  lemma DeclaredFlags()
    ensures Flags(Declared) == ["network", "target", "num-steps", "num-steps-pti", "seed", "save-video", "outdir",
                                "fps", "num-targets", "downsampling", "optimize-cam"]
    ensures forall i :: 0 <= i < |Declared| ==>
      (Declared[i].presence.Required? <==>
       Declared[i].flag in {"network", "target", "outdir", "downsampling", "optimize-cam"})
  {
  }

  /** One value of the declared type for each declared option, position by position. */
  predicate Typed(vs: seq<Value>) {
    && |vs| == 11
    && vs[0].VText? && vs[1].VText? && vs[2].VInt? && vs[3].VInt? && vs[4].VInt? && vs[5].VBool?
    && vs[6].VText? && vs[7].VInt? && vs[8].VInt? && vs[9].VBool? && vs[10].VBool?
  }

  /** `Typed` is having the declared kinds. */
  lemma TypedIsDeclaredKinds(vs: seq<Value>)
    ensures Typed(vs) <==> |vs| == |Declared| && forall i :: 0 <= i < |vs| ==> HasKind(vs[i], Declared[i].kind)
  {
    if |vs| == |Declared| && forall i :: 0 <= i < |vs| ==> HasKind(vs[i], Declared[i].kind) {
      assert HasKind(vs[0], Declared[0].kind) && HasKind(vs[10], Declared[10].kind);
    }
  }

  /** The options as the values of the declared options, in order. */
  function Values(o: Options): (vs: seq<Value>)
    ensures Typed(vs)
  {
    var vs := [VText(o.networkPkl), VText(o.targetFname), VInt(o.numSteps), VInt(o.numStepsPti), VInt(o.seed),
               VBool(o.saveVideo), VText(o.outdir), VInt(o.fps), VInt(o.numTargets), VBool(o.downsampling),
               VBool(o.optimizeCam)];
    assert vs[0].VText? && vs[1].VText? && vs[2].VInt? && vs[3].VInt? && vs[4].VInt?;
    assert vs[5].VBool? && vs[6].VText? && vs[7].VInt? && vs[8].VInt?;
    vs
  }

  /** The keyword arguments `run_projection` receives for the declared options' values. */
  function FromValues(vs: seq<Value>): (o: Options)
    requires Typed(vs)
    ensures Values(o) == vs
  {
    Options(vs[0].text, vs[1].text, vs[2].number, vs[3].number, vs[4].number, vs[5].flag, vs[6].text,
            vs[7].number, vs[8].number, vs[9].flag, vs[10].flag)
  }

  /** Rendering options as values loses nothing. */
  lemma FromValuesOfValues(o: Options)
    ensures FromValues(Values(o)) == o
  {
  }

  lemma DeclaredWellTyped()
    ensures forall i :: 0 <= i < |Declared| ==> WellTyped(Declared[i])
  {
  }

  /** The options the command line `args` yields, or nothing when click rejects it. */
  function Parse(args: seq<string>): (r: Option<Options>)
    ensures r.Some? <==> ReadAll(Declared, args).Some?
    ensures r.Some? ==> ReadAll(Declared, args) == Some(Values(r.value))
  {
    ReadAllTyped(args);
    var vs :- ReadAll(Declared, args);
    Some(FromValues(vs))
  }

  /** What click hands over has the declared types. */
  lemma ReadAllTyped(args: seq<string>)
    ensures ReadAll(Declared, args).Some? ==> Typed(ReadAll(Declared, args).value)
  {
    DeclaredWellTyped();
    if ReadAll(Declared, args).Some? {
      TypedIsDeclaredKinds(ReadAll(Declared, args).value);
    }
  }

  /**
   * `desc`: the name of the run directory, made below `outdir`. The pieces
   * are those `desc +=` appends, in order; the grouping is immaterial.
   */
  function RunName(o: Options, curTime: string): string {
    "/" + NameBody(curTime, IntToString(o.numTargets), IntToString(o.numSteps), IntToString(o.numStepsPti),
                   LastSegment(o.targetFname))
  }

  /** The run name after its slash, from the rendered pieces. */
  function NameBody(curTime: string, n: string, a: string, b: string, data: string): string {
    curTime + ("_multiview_" + (n + ("_iter_" + (a + ("_" + (b + ("_data_" + data)))))))
  }

  /** What the run name records. */
  datatype RunFields = RunFields(
    curTime: string,
    numTargets: int,
    numSteps: int,
    numStepsPti: int,
    dataIndex: string)

  function Fields(o: Options, curTime: string): RunFields {
    RunFields(curTime, o.numTargets, o.numSteps, o.numStepsPti, LastSegment(o.targetFname))
  }

  /** Reads a run name back into the fields it records. */
  function ParseRunName(name: string): Option<RunFields> {
    var r0 :- StripPrefix("/", name);
    var (curTime, r1) := Span(r0, '_');
    var r2 :- StripPrefix("_multiview_", r1);
    var (n, r3) := Span(r2, '_');
    var numTargets :- ParseInt(n);
    var r4 :- StripPrefix("_iter_", r3);
    var (a, r5) := Span(r4, '_');
    var numSteps :- ParseInt(a);
    var r6 :- StripPrefix("_", r5);
    var (b, r7) := Span(r6, '_');
    var numStepsPti :- ParseInt(b);
    var dataIndex :- StripPrefix("_data_", r7);
    Some(RunFields(curTime, numTargets, numSteps, numStepsPti, dataIndex))
  }

  /**
   * The run name can be read back: it records the time stamp, the three
   * counts and the data index, and nothing else. The time stamp must hold
   * no `_`, as `%Y%m%d-%H%M` does not.
   */
  lemma RunNameRoundTrip(o: Options, curTime: string)
    requires '_' !in curTime
    ensures ParseRunName(RunName(o, curTime)) == Some(Fields(o, curTime))
  {
    var n, a, b := IntToString(o.numTargets), IntToString(o.numSteps), IntToString(o.numStepsPti);
    IntToStringAvoids(o.numTargets, '_');
    IntToStringAvoids(o.numSteps, '_');
    IntToStringAvoids(o.numStepsPti, '_');
    IntRoundTrip(o.numTargets);
    IntRoundTrip(o.numSteps);
    IntRoundTrip(o.numStepsPti);
    var d := LastSegment(o.targetFname);
    var r7 := "_data_" + d;
    var r6 := b + r7;
    var r5 := "_" + r6;
    var r4 := a + r5;
    var r3 := "_iter_" + r4;
    var r2 := n + r3;
    var r1 := "_multiview_" + r2;
    var r0 := curTime + r1;
    StripPrefixOf("/", r0);
    SpanOf(curTime, r1, '_');
    StripPrefixOf("_multiview_", r2);
    SpanOf(n, r3, '_');
    StripPrefixOf("_iter_", r4);
    SpanOf(a, r5, '_');
    StripPrefixOf("_", r6);
    SpanOf(b, r7, '_');
    StripPrefixOf("_data_", d);
  }

  /** Two runs share a directory name only when they agree on every field it records. */
  lemma RunNameInjective(o1: Options, t1: string, o2: Options, t2: string)
    requires '_' !in t1 && '_' !in t2
    requires RunName(o1, t1) == RunName(o2, t2)
    ensures Fields(o1, t1) == Fields(o2, t2)
  {
    RunNameRoundTrip(o1, t1);
    RunNameRoundTrip(o2, t2);
  }

  /** `outdir += desc`: the run directory. */
  function OutputDir(o: Options, curTime: string): string {
    o.outdir + RunName(o, curTime)
  }

  /**
   * The run directory is a single new folder inside the given `outdir`:
   * `outdir` is a prefix, and the last path segment is the run name without
   * its leading slash. The time stamp must hold no `/`.
   */
  lemma OutputDirIsChild(o: Options, curTime: string)
    requires '/' !in curTime
    ensures StartsWith(o.outdir, OutputDir(o, curTime))
    ensures LastSegment(OutputDir(o, curTime)) == RunName(o, curTime)[1..]
  {
    var n, a, b := IntToString(o.numTargets), IntToString(o.numSteps), IntToString(o.numStepsPti);
    var d := LastSegment(o.targetFname);
    var rest := NameBody(curTime, n, a, b, d);
    assert ("/" + rest)[1..] == rest;
    assert (o.outdir + ("/" + rest))[..|o.outdir|] == o.outdir;
    IntToStringAvoids(o.numTargets, '/');
    IntToStringAvoids(o.numSteps, '/');
    IntToStringAvoids(o.numStepsPti, '/');
    NameBodyNoSlash(curTime, n, a, b, d);
    LastSegmentOfChild(o.outdir, rest);
  }

  /** Pieces without a slash make a run name body without one. */
  lemma NameBodyNoSlash(curTime: string, n: string, a: string, b: string, data: string)
    requires '/' !in curTime && '/' !in n && '/' !in a && '/' !in b && '/' !in data
    ensures '/' !in NameBody(curTime, n, a, b, data)
  {
  }

  /** The `config.json` record, with the two stage durations as inputs. */
  function ConfigRecord(o: Options, curTime: string, timeW: real, timePti: real): (rec: Record)
    ensures |rec| == 11
  {
    [("net", JStr(o.networkPkl)),
     ("target_fname", JStr(o.targetFname)),
     ("seed", JInt(o.seed)),
     ("num_steps", JInt(o.numSteps)),
     ("num_steps_pti", JInt(o.numStepsPti)),
     ("num_targets", JInt(o.numTargets)),
     ("downsampling", JBool(o.downsampling)),
     ("optimize_cam", JBool(o.optimizeCam)),
     ("time", JStr(curTime)),
     ("time_project_w", JNum(timeW)),
     ("time_pti", JNum(timePti))]
  }

  const ConfigKeys: seq<string> := [
    "net", "target_fname", "seed", "num_steps", "num_steps_pti", "num_targets", "downsampling",
    "optimize_cam", "time", "time_project_w", "time_pti"]

  /** The record has exactly the eleven keys, in order, `optimize_cam` among them. */
  lemma ConfigRecordKeys(o: Options, curTime: string, timeW: real, timePti: real)
    ensures Keys(ConfigRecord(o, curTime, timeW, timePti)) == ConfigKeys
    ensures "optimize_cam" in ConfigKeys
  {
    var ks := Keys(ConfigRecord(o, curTime, timeW, timePti));
    assert ks == ConfigKeys;
    assert ConfigKeys[7] == "optimize_cam";
  }

  /** No key occurs twice. */
  lemma ConfigRecordDistinct(o: Options, curTime: string, timeW: real, timePti: real)
    ensures DistinctKeys(ConfigRecord(o, curTime, timeW, timePti))
  {
  }

  /** Reading `config.json` back: each listed key finds its own entry. */
  lemma ConfigRecordLookup(o: Options, curTime: string, timeW: real, timePti: real, i: nat)
    requires i < |ConfigKeys|
    ensures Get(ConfigRecord(o, curTime, timeW, timePti), ConfigKeys[i]) == Some(ConfigRecord(o, curTime, timeW, timePti)[i].1)
  {
    ConfigRecordKeys(o, curTime, timeW, timePti);
    ConfigRecordDistinct(o, curTime, timeW, timePti);
    GetOfDistinct(ConfigRecord(o, curTime, timeW, timePti), i);
  }

  /**
   * The record determines every option it lists, the time stamp and the
   * two durations.
   */
  lemma ConfigRecordInjective(o1: Options, t1: string, w1: real, p1: real, o2: Options, t2: string, w2: real, p2: real)
    requires ConfigRecord(o1, t1, w1, p1) == ConfigRecord(o2, t2, w2, p2)
    ensures o1.networkPkl == o2.networkPkl && o1.targetFname == o2.targetFname && o1.seed == o2.seed
    ensures o1.numSteps == o2.numSteps && o1.numStepsPti == o2.numStepsPti && o1.numTargets == o2.numTargets
    ensures o1.downsampling == o2.downsampling && o1.optimizeCam == o2.optimizeCam
    ensures t1 == t2 && w1 == w2 && p1 == p2
  {
    var r1, r2 := ConfigRecord(o1, t1, w1, p1), ConfigRecord(o2, t2, w2, p2);
    assert r1[0].1 == r2[0].1 && r1[1].1 == r2[1].1 && r1[2].1 == r2[2].1 && r1[3].1 == r2[3].1;
    assert r1[4].1 == r2[4].1 && r1[5].1 == r2[5].1 && r1[6].1 == r2[6].1 && r1[7].1 == r2[7].1;
    assert r1[8].1 == r2[8].1 && r1[9].1 == r2[9].1 && r1[10].1 == r2[10].1;
  }

  /**
   * `w_pivot=projected_w_steps[-1:]`: pivotal tuning receives the last
   * latent as a one-element list, and an empty list for an empty trajectory.
   */
  function Pivots<W>(wSteps: seq<W>): (p: seq<W>)
    ensures |wSteps| == 0 ==> p == []
    ensures |wSteps| > 0 ==> p == [wSteps[|wSteps| - 1]]
  {
    LastSlice(wSteps);
    TailSlice(wSteps, 1)
  }

  /** `projected_w = projected_w_steps[-1]`: the saved latent is the one pivotal tuning started from. */
  function SavedLatent<W>(wSteps: seq<W>): (w: W)
    requires |wSteps| > 0
    ensures [w] == Pivots(wSteps)
  {
    Last(wSteps)
  }

  /**
   * The rendering saved as `proj.png`: the last generator snapshot renders
   * the saved latent with the camera of `images[0]`, whichever views were
   * selected.
   */
  function Projection<W, G>(wSteps: seq<W>, gSteps: seq<G>): (s: Synth<W, G>)
    requires |wSteps| > 0 && |gSteps| > 0
    ensures s.gen == Tuned(Last(gSteps)) && [s.latent] == Pivots(wSteps)
    ensures s.camera == 0
  {
    Synth(Tuned(Last(gSteps)), SavedLatent(wSteps), 0)
  }

  /** The number of views in every video frame: `select_evenly(images, 5)`. */
  const VideoViews: nat := 5

  /** The frames of the W phase: step `j` renders its one latent for every view. */
  function WFrames<W, G>(wSteps: seq<W>, views: seq<nat>): (fs: seq<seq<Panel<W, G>>>)
    ensures |fs| == |wSteps|
    ensures forall j :: 0 <= j < |fs| ==> |fs[j]| == |views|
  {
    if wSteps == [] then []
    else
      var n := |wSteps| - 1;
      WFrames(wSteps[..n], views) + [Frame(Loaded, Repeat(wSteps[n], |views|), views)]
  }

  lemma {:induction false} WFramesAt<W, G>(wSteps: seq<W>, views: seq<nat>, j: nat)
    requires j < |wSteps|
    ensures WFrames<W, G>(wSteps, views)[j] == Frame(Loaded, Repeat(wSteps[j], |views|), views)
  {
    if j < |wSteps| - 1 {
      WFramesAt<W, G>(wSteps[..|wSteps| - 1], views, j);
    }
  }

  /** The whole video: the W-phase frames, then the tuning frames, which render the last latent. */
  function VideoFrames<W, G>(angles: seq<real>, wSteps: seq<W>, gSteps: seq<G>): (fs: seq<seq<Panel<W, G>>>)
    requires |angles| > 0 && |wSteps| > 0
    ensures |fs| == |wSteps| + |gSteps|
  {
    var views := Selection(angles, VideoViews);
    WFrames(wSteps, views) + TunedFrames(Repeat(Last(wSteps), VideoViews), views, gSteps)
  }

  /** The `if save_video:` block: the two frame loops, each frame built view by view. */
  method SaveVideo<W, G>(angles: seq<real>, wSteps: seq<W>, gSteps: seq<G>) returns (frames: seq<seq<Panel<W, G>>>)
    requires |angles| > 0 && |wSteps| > 0
    ensures frames == VideoFrames(angles, wSteps, gSteps)
  {
    var views := SelectEvenly(angles, VideoViews);
    frames := [];
    for j := 0 to |wSteps|
      invariant frames == WFrames(wSteps[..j], views)
    {
      var frame := RenderFrame(Loaded, Repeat(wSteps[j], |views|), views);
      assert wSteps[..j + 1][..j] == wSteps[..j] && wSteps[..j + 1][j] == wSteps[j];
      assert WFrames(wSteps[..j + 1], views) == WFrames(wSteps[..j], views) + [frame];
      frames := frames + [frame];
    }
    assert wSteps[..|wSteps|] == wSteps;
    var tuned := RenderTuned(Repeat(Last(wSteps), VideoViews), views, gSteps);
    frames := frames + tuned;
  }

  /**
   * The video has one frame per W step followed by one per generator
   * snapshot, five panels each, for the views of `select_evenly(images, 5)`
   * whatever the number of targets. In W frame `j` every panel renders the
   * latent of step `j` with the script's generator object `G`; in tuning frame `j` every
   * panel renders the last latent with snapshot `j`.
   */
  lemma VideoLayout<W, G>(angles: seq<real>, wSteps: seq<W>, gSteps: seq<G>)
    requires |angles| > 0 && |wSteps| > 0
    ensures var fs := VideoFrames<W, G>(angles, wSteps, gSteps); var views := Selection(angles, VideoViews);
      && |fs| == |wSteps| + |gSteps|
      && (forall j :: 0 <= j < |fs| ==> |fs[j]| == VideoViews)
      && (forall j, i :: 0 <= j < |wSteps| && 0 <= i < VideoViews ==>
            fs[j][i] == Panel(views[i], Synth(Loaded, wSteps[j], views[i])))
      && (forall j, i :: 0 <= j < |gSteps| && 0 <= i < VideoViews ==>
            fs[|wSteps| + j][i] == Panel(views[i], Synth(Tuned(gSteps[j]), Last(wSteps), views[i])))
  {
    var views := Selection(angles, VideoViews);
    var fs := VideoFrames<W, G>(angles, wSteps, gSteps);
    var last := Repeat(Last(wSteps), VideoViews);
    forall j | 0 <= j < |wSteps|
      ensures fs[j] == Frame(Loaded, Repeat(wSteps[j], VideoViews), views)
    {
      WFramesAt<W, G>(wSteps, views, j);
    }
    forall j | 0 <= j < |gSteps|
      ensures fs[|wSteps| + j] == Frame(Tuned(gSteps[j]), last, views)
    {
      TunedFramesAt(last, views, gSteps, j);
    }
  }

  /**
   * The saved projection is what the first panel of the last video frame
   * renders exactly when `images[0]` has the smallest angle: the first video
   * view is the first view of least angle, while the projection always uses
   * camera 0.
   */
  lemma ProjectionIsLastFramePanelIff<W, G>(angles: seq<real>, wSteps: seq<W>, gSteps: seq<G>)
    requires |angles| > 0 && |wSteps| > 0 && |gSteps| > 0
    ensures Projection(wSteps, gSteps) == VideoFrames(angles, wSteps, gSteps)[|wSteps| + |gSteps| - 1][0].synth
      <==> angles[0] == MinAngle(angles)
  {
    VideoLayout<W, G>(angles, wSteps, gSteps);
    SelectionEndpoints(angles, VideoViews);
    var first := Selection(angles, VideoViews)[0];
    assert VideoFrames<W, G>(angles, wSteps, gSteps)[|wSteps| + |gSteps| - 1][0].synth.camera == first;
    if angles[0] == MinAngle(angles) {
      assert first == 0;
    }
  }

  /**
   * The optimised views and the video views are both `select_evenly` of the
   * same angles: with at least two targets they begin and end with the same
   * view, though they differ in number unless there are five targets.
   */
  lemma TargetsAndVideoViews(angles: seq<real>, numTargets: nat)
    requires |angles| > 0 && numTargets >= 2
    ensures |Selection(angles, numTargets)| == numTargets && |Selection(angles, VideoViews)| == VideoViews
    ensures Selection(angles, numTargets)[0] == Selection(angles, VideoViews)[0]
    ensures Selection(angles, numTargets)[numTargets - 1] == Selection(angles, VideoViews)[VideoViews - 1]
  {
    SelectionEndsAgree(angles, numTargets, VideoViews);
  }
}

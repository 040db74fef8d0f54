/**
 * `run_pipeline.py`, the experiment sweep: each handler turns its keyword
 * arguments into `--flag=value` words for one of the two entry scripts.
 * Launching the command is not modelled; `Command` is the list it would
 * hand to `subprocess.run`.
 */
module RunPipeline {
  import opened Wrappers
  import opened Text
  import opened Cli
  import MultiW = MultiInversionMultiW
  import Single = MultiInversion

  /** The keyword arguments of `MultiWHandler`. */
  datatype MultiWParams = MultiWParams(
    network: string,
    dataset: string,
    numSteps: int,
    numStepsPti: int,
    outDir: string,
    numTargets: int,
    downsampling: bool,
    continueW: string,
    useInterpolation: bool,
    depthReg: bool,
    wNormReg: bool,
    saveVideo: bool)

  /** The flags `MultiWHandler` passes, with the values they render, in the order it appends them. */
  function MultiWPairs(p: MultiWParams): seq<(string, Value)> {
    [("network", VText(p.network)),
     ("target", VText(p.dataset)),
     ("num-steps", VInt(p.numSteps)),
     ("num-steps-pti", VInt(p.numStepsPti)),
     ("outdir", VText(p.outDir)),
     ("num-targets", VInt(p.numTargets)),
     ("downsampling", VBool(p.downsampling)),
     ("continue-w", VText(p.continueW)),
     ("use-interpolation", VBool(p.useInterpolation)),
     ("depth-reg", VBool(p.depthReg)),
     ("w-norm-reg", VBool(p.wNormReg)),
     ("save-video", VBool(p.saveVideo))]
  }

  /** A list of twelve words, as twelve appends to the empty list. */
  lemma Appended12(ws: seq<string>)
    requires |ws| == 12
    ensures ws == [] + [ws[0]] + [ws[1]] + [ws[2]] + [ws[3]] + [ws[4]] + [ws[5]] + [ws[6]] + [ws[7]] + [ws[8]]
      + [ws[9]] + [ws[10]] + [ws[11]]
  {
  }

  /** The words of the pairs, appended one per keyword argument. */
  lemma MultiWWords(p: MultiWParams)
    ensures Args(MultiWPairs(p)) ==
      [] + [Arg("network", p.network)] + [Arg("target", p.dataset)] + [Arg("num-steps", IntToString(p.numSteps))]
      + [Arg("num-steps-pti", IntToString(p.numStepsPti))] + [Arg("outdir", p.outDir)]
      + [Arg("num-targets", IntToString(p.numTargets))] + [Arg("downsampling", BoolToString(p.downsampling))]
      + [Arg("continue-w", p.continueW)] + [Arg("use-interpolation", BoolToString(p.useInterpolation))]
      + [Arg("depth-reg", BoolToString(p.depthReg))] + [Arg("w-norm-reg", BoolToString(p.wNormReg))]
      + [Arg("save-video", BoolToString(p.saveVideo))]
  {
    var pairs := MultiWPairs(p);
    var ws := Args(pairs);
    Appended12(ws);
    assert ws[0] == Arg("network", p.network) && ws[1] == Arg("target", p.dataset);
    assert ws[2] == Arg("num-steps", IntToString(p.numSteps)) && ws[3] == Arg("num-steps-pti", IntToString(p.numStepsPti));
    assert ws[4] == Arg("outdir", p.outDir) && ws[5] == Arg("num-targets", IntToString(p.numTargets));
    assert ws[6] == Arg("downsampling", BoolToString(p.downsampling)) && ws[7] == Arg("continue-w", p.continueW);
    assert ws[8] == Arg("use-interpolation", BoolToString(p.useInterpolation));
    assert ws[9] == Arg("depth-reg", BoolToString(p.depthReg)) && ws[10] == Arg("w-norm-reg", BoolToString(p.wNormReg));
    assert ws[11] == Arg("save-video", BoolToString(p.saveVideo));
  }

  class MultiWHandler {
    var args: seq<string>
    var python: string
    var pathToProgram: string

    /** Appends one `--flag=value` word per keyword argument, in a fixed order. */
    constructor (network: string := "networks/var3-128.pkl",
                 dataset: string := "../dataset_preprocessing/ffhq/1",
                 numSteps: int := 500,
                 numStepsPti: int := 500,
                 outDir: string := "out",
                 numTargets: int := 5,
                 downsampling: bool := true,
                 continueW: string := "out/20231018-1447_multiview_7/499_projected_w.npz",
                 useInterpolation: bool := false,
                 depthReg: bool := false,
                 wNormReg: bool := true,
                 saveVideo: bool := false)
      ensures args == Args(MultiWPairs(MultiWParams(network, dataset, numSteps, numStepsPti, outDir, numTargets,
                                                     downsampling, continueW, useInterpolation, depthReg, wNormReg, saveVideo)))
      ensures python == "python" && pathToProgram == "multi_inversion_multi_w.py"
    {
      var a: seq<string> := [];
      a := a + [Arg("network", network)];
      a := a + [Arg("target", dataset)];
      a := a + [Arg("num-steps", IntToString(numSteps))];
      a := a + [Arg("num-steps-pti", IntToString(numStepsPti))];
      a := a + [Arg("outdir", outDir)];
      a := a + [Arg("num-targets", IntToString(numTargets))];
      a := a + [Arg("downsampling", BoolToString(downsampling))];
      a := a + [Arg("continue-w", continueW)];
      a := a + [Arg("use-interpolation", BoolToString(useInterpolation))];
      a := a + [Arg("depth-reg", BoolToString(depthReg))];
      a := a + [Arg("w-norm-reg", BoolToString(wNormReg))];
      a := a + [Arg("save-video", BoolToString(saveVideo))];
      MultiWWords(MultiWParams(network, dataset, numSteps, numStepsPti, outDir, numTargets,
                               downsampling, continueW, useInterpolation, depthReg, wNormReg, saveVideo));
      args := a;
      python := "python";
      pathToProgram := "multi_inversion_multi_w.py";
    }

    /** `[self.python, self.path_to_program, *self.args]`. */
    function Command(): (c: seq<string>)
      reads this
      ensures |c| == |args| + 2 && c[0] == python && c[1] == pathToProgram && c[2..] == args
    {
      [python, pathToProgram] + args
    }
  }

  /** The flags in the order `MultiWHandler` passes them. */
  const MultiWOrder: seq<string> := [
    "network", "target", "num-steps", "num-steps-pti", "outdir", "num-targets", "downsampling",
    "continue-w", "use-interpolation", "depth-reg", "w-norm-reg", "save-video"]

  /** The pairs name declared flags without `=`, none of them twice. */
  predicate WellFormedFor(pairs: seq<(string, Value)>, decls: seq<Decl>) {
    && DistinctFlags(pairs)
    && forall i :: 0 <= i < |pairs| ==> '=' !in pairs[i].0 && pairs[i].0 in Flags(decls)
  }

  /** Pair `i` carries flag `i` of the order. */
  lemma MultiWPairFlags(p: MultiWParams)
    ensures |MultiWPairs(p)| == |MultiWOrder| && forall i :: 0 <= i < |MultiWOrder| ==> MultiWPairs(p)[i].0 == MultiWOrder[i]
  {
  }

  lemma MultiWOrderDistinct()
    ensures forall i, j :: 0 <= i < j < |MultiWOrder| ==> MultiWOrder[i] != MultiWOrder[j]
  {
  }

  lemma MultiWOrderNoEquals()
    ensures forall i :: 0 <= i < |MultiWOrder| ==> '=' !in MultiWOrder[i]
  {
  }

  /** Where each flag of the order sits among the declared options. */
  const MultiWDeclIndex: seq<nat> := [0, 1, 2, 3, 6, 8, 9, 10, 11, 12, 13, 5]

  lemma MultiWOrderIndexed()
    ensures |MultiWDeclIndex| == |MultiWOrder|
    ensures forall i :: 0 <= i < |MultiWOrder| ==>
      MultiWDeclIndex[i] < |MultiW.Declared| && MultiWOrder[i] == MultiW.Declared[MultiWDeclIndex[i]].flag
  {
  }

  /** The pair that passes each declared option; `-1` for `--seed` and `--fps`, which are not passed. */
  const MultiWPairIndex: seq<int> := [0, 1, 2, 3, -1, 11, 4, -1, 5, 6, 7, 8, 9, 10]

  lemma MultiWIndexInverse()
    ensures |MultiWPairIndex| == 14
    ensures forall k :: 0 <= k < 14 && k != 4 && k != 7 ==>
      0 <= MultiWPairIndex[k] < 12 && MultiWDeclIndex[MultiWPairIndex[k]] == k
  {
  }

  lemma MultiWOrderDeclared()
    ensures forall i :: 0 <= i < |MultiWOrder| ==> '=' !in MultiWOrder[i] && MultiWOrder[i] in Flags(MultiW.Declared)
  {
    MultiWOrderNoEquals();
    MultiWOrderIndexed();
    var fs := Flags(MultiW.Declared);
    forall i | 0 <= i < |MultiWOrder|
      ensures MultiWOrder[i] in fs
    {
      assert fs[MultiWDeclIndex[i]] == MultiWOrder[i];
    }
  }

  lemma MultiWOrderOmits()
    ensures "seed" !in MultiWOrder && "fps" !in MultiWOrder
  {
  }

  lemma MultiWWellFormed(p: MultiWParams)
    ensures WellFormedFor(MultiWPairs(p), MultiW.Declared)
  {
    MultiWPairFlags(p);
    MultiWOrderDistinct();
    MultiWOrderDeclared();
  }

  /** Every word `MultiWHandler` passes names a flag `multi_inversion_multi_w.py` declares. */
  lemma MultiWAccepted(p: MultiWParams)
    ensures Accepted(Flags(MultiW.Declared), Args(MultiWPairs(p)))
  {
    MultiWWellFormed(p);
    ArgsAccepted(Flags(MultiW.Declared), MultiWPairs(p));
  }

  /** `--seed` and `--fps` are never passed, so their defaults apply. */
  lemma MultiWOmitsSeedAndFps(p: MultiWParams)
    ensures Passed(Args(MultiWPairs(p)), "seed") == None
    ensures Passed(Args(MultiWPairs(p)), "fps") == None
  {
    var pairs := MultiWPairs(p);
    MultiWWellFormed(p);
    MultiWPairFlags(p);
    MultiWOrderOmits();
    assert forall i :: 0 <= i < |pairs| ==> pairs[i].0 in MultiWOrder;
    PassedOfArgs(pairs, "seed");
    PassedOfArgs(pairs, "fps");
    LookupAbsent(pairs, "seed");
    LookupAbsent(pairs, "fps");
  }

  /** The script receives the handler's values, seed 303 and 30 frames per second. */
  function MultiWReceived(p: MultiWParams): MultiW.Options {
    MultiW.Options(p.network, p.dataset, p.numSteps, p.numStepsPti, 303, p.saveVideo, p.outDir, 30, p.numTargets,
                   p.downsampling, p.continueW, p.useInterpolation, p.depthReg, p.wNormReg)
  }

  /** Pair `i` carries the value the script should receive for the option it names. */
  lemma MultiWPairValues(p: MultiWParams)
    ensures |MultiWPairs(p)| == |MultiWDeclIndex| == 12
    ensures forall i :: 0 <= i < 12 ==>
      MultiWDeclIndex[i] < 14 && MultiWPairs(p)[i].1 == MultiW.Values(MultiWReceived(p))[MultiWDeclIndex[i]]
  {
    var vs := MultiW.Values(MultiWReceived(p));
    assert vs[0] == VText(p.network) && vs[1] == VText(p.dataset) && vs[2] == VInt(p.numSteps);
    assert vs[3] == VInt(p.numStepsPti) && vs[6] == VText(p.outDir) && vs[8] == VInt(p.numTargets);
    assert vs[9] == VBool(p.downsampling) && vs[10] == VText(p.continueW) && vs[11] == VBool(p.useInterpolation);
    assert vs[12] == VBool(p.depthReg) && vs[13] == VBool(p.wNormReg) && vs[5] == VBool(p.saveVideo);
  }

  /** Each declared option of `multi_inversion_multi_w.py` reads as the value the handler meant. */
  lemma MultiWReads(p: MultiWParams)
    ensures forall k :: 0 <= k < |MultiW.Declared| ==>
      Read(MultiW.Declared[k], Args(MultiWPairs(p))) == Some(MultiW.Values(MultiWReceived(p))[k])
  {
    var pairs := MultiWPairs(p);
    var ds := MultiW.Declared;
    var vs := MultiW.Values(MultiWReceived(p));
    var idx := MultiWDeclIndex;
    MultiWWellFormed(p);
    MultiWPairFlags(p);
    MultiWOrderIndexed();
    MultiWPairValues(p);
    MultiWIndexInverse();
    MultiW.TypedIsDeclaredKinds(vs);
    forall i | 0 <= i < 12
      ensures Read(ds[idx[i]], Args(pairs)) == Some(vs[idx[i]])
    {
      ReadPassed(ds[idx[i]], pairs, i);
    }
    MultiWOrderOmits();
    assert ds[4].flag == "seed" && ds[7].flag == "fps";
    assert forall j :: 0 <= j < |pairs| ==> pairs[j].0 in MultiWOrder;
    ReadDefault(ds[4], pairs);
    ReadDefault(ds[7], pairs);
    assert vs[4] == VInt(303) && vs[7] == VInt(30);
    forall k | 0 <= k < |ds|
      ensures Read(ds[k], Args(pairs)) == Some(vs[k])
    {
      if k != 4 && k != 7 {
        assert idx[MultiWPairIndex[k]] == k;
      }
    }
  }

  /**
   * click accepts the words `MultiWHandler` builds and hands
   * `run_projection` exactly the handler's values, with the default seed
   * and frame rate: every required option is passed.
   */
  lemma MultiWParses(p: MultiWParams)
    ensures MultiW.Parse(Args(MultiWPairs(p))) == Some(MultiWReceived(p))
  {
    var o := MultiWReceived(p);
    MultiWWellFormed(p);
    MultiWReads(p);
    ReadAllOfArgs(MultiW.Declared, MultiWPairs(p), MultiW.Values(o));
    MultiW.FromValuesOfValues(o);
  }

  /** The keyword arguments of `SingleWHandler`. */
  datatype SingleWParams = SingleWParams(
    network: string,
    dataset: string,
    numSteps: int,
    numStepsPti: int,
    outDir: string,
    numTargets: int,
    downsampling: bool,
    optimizeCam: bool,
    saveVideo: bool)

  /** The flags `SingleWHandler` passes, with the values they render, in the order it appends them. */
  function SingleWPairs(p: SingleWParams): seq<(string, Value)> {
    [("network", VText(p.network)),
     ("target", VText(p.dataset)),
     ("num-steps", VInt(p.numSteps)),
     ("num-steps-pti", VInt(p.numStepsPti)),
     ("outdir", VText(p.outDir)),
     ("num-targets", VInt(p.numTargets)),
     ("downsampling", VBool(p.downsampling)),
     ("optimize-cam", VBool(p.optimizeCam)),
     ("save-video", VBool(p.saveVideo))]
  }

  /** A list of nine words, as nine appends to the empty list. */
  lemma Appended9(ws: seq<string>)
    requires |ws| == 9
    ensures ws == [] + [ws[0]] + [ws[1]] + [ws[2]] + [ws[3]] + [ws[4]] + [ws[5]] + [ws[6]] + [ws[7]] + [ws[8]]
  {
  }

  /** The words of the pairs, appended one per keyword argument. */
  lemma SingleWWords(p: SingleWParams)
    ensures Args(SingleWPairs(p)) ==
      [] + [Arg("network", p.network)] + [Arg("target", p.dataset)] + [Arg("num-steps", IntToString(p.numSteps))]
      + [Arg("num-steps-pti", IntToString(p.numStepsPti))] + [Arg("outdir", p.outDir)]
      + [Arg("num-targets", IntToString(p.numTargets))] + [Arg("downsampling", BoolToString(p.downsampling))]
      + [Arg("optimize-cam", BoolToString(p.optimizeCam))] + [Arg("save-video", BoolToString(p.saveVideo))]
  {
    var pairs := SingleWPairs(p);
    var ws := Args(pairs);
    Appended9(ws);
    assert ws[0] == Arg("network", p.network) && ws[1] == Arg("target", p.dataset);
    assert ws[2] == Arg("num-steps", IntToString(p.numSteps)) && ws[3] == Arg("num-steps-pti", IntToString(p.numStepsPti));
    assert ws[4] == Arg("outdir", p.outDir) && ws[5] == Arg("num-targets", IntToString(p.numTargets));
    assert ws[6] == Arg("downsampling", BoolToString(p.downsampling));
    assert ws[7] == Arg("optimize-cam", BoolToString(p.optimizeCam)) && ws[8] == Arg("save-video", BoolToString(p.saveVideo));
  }

  class SingleWHandler {
    var args: seq<string>
    var python: string
    var pathToProgram: string

    /** Appends one `--flag=value` word per keyword argument, in a fixed order. */
    constructor (network: string := "networks/var3-128.pkl",
                 dataset: string := "../dataset_preprocessing/ffhq/2",
                 numSteps: int := 500,
                 numStepsPti: int := 500,
                 outDir: string := "out",
                 numTargets: int := 7,
                 downsampling: bool := true,
                 optimizeCam: bool := false,
                 saveVideo: bool := false)
      ensures args == Args(SingleWPairs(SingleWParams(network, dataset, numSteps, numStepsPti, outDir, numTargets,
                                                       downsampling, optimizeCam, saveVideo)))
      ensures python == "python" && pathToProgram == "multi_inversion.py"
    {
      var a: seq<string> := [];
      a := a + [Arg("network", network)];
      a := a + [Arg("target", dataset)];
      a := a + [Arg("num-steps", IntToString(numSteps))];
      a := a + [Arg("num-steps-pti", IntToString(numStepsPti))];
      a := a + [Arg("outdir", outDir)];
      a := a + [Arg("num-targets", IntToString(numTargets))];
      a := a + [Arg("downsampling", BoolToString(downsampling))];
      a := a + [Arg("optimize-cam", BoolToString(optimizeCam))];
      a := a + [Arg("save-video", BoolToString(saveVideo))];
      SingleWWords(SingleWParams(network, dataset, numSteps, numStepsPti, outDir, numTargets,
                                 downsampling, optimizeCam, saveVideo));
      args := a;
      python := "python";
      pathToProgram := "multi_inversion.py";
    }

    /** `[self.python, self.path_to_program, *self.args]`. */
    function Command(): (c: seq<string>)
      reads this
      ensures |c| == |args| + 2 && c[0] == python && c[1] == pathToProgram && c[2..] == args
    {
      [python, pathToProgram] + args
    }
  }

  /** The flags in the order `SingleWHandler` passes them. */
  const SingleWOrder: seq<string> := [
    "network", "target", "num-steps", "num-steps-pti", "outdir", "num-targets", "downsampling",
    "optimize-cam", "save-video"]

  /** Pair `i` carries flag `i` of the order. */
  lemma SingleWPairFlags(p: SingleWParams)
    ensures |SingleWPairs(p)| == |SingleWOrder| && forall i :: 0 <= i < |SingleWOrder| ==> SingleWPairs(p)[i].0 == SingleWOrder[i]
  {
  }

  lemma SingleWOrderDistinct()
    ensures forall i, j :: 0 <= i < j < |SingleWOrder| ==> SingleWOrder[i] != SingleWOrder[j]
  {
  }

  lemma SingleWOrderNoEquals()
    ensures forall i :: 0 <= i < |SingleWOrder| ==> '=' !in SingleWOrder[i]
  {
  }

  /** Where each flag of the order sits among the declared options. */
  const SingleWDeclIndex: seq<nat> := [0, 1, 2, 3, 6, 8, 9, 10, 5]

  lemma SingleWOrderIndexed()
    ensures |SingleWDeclIndex| == |SingleWOrder|
    ensures forall i :: 0 <= i < |SingleWOrder| ==>
      SingleWDeclIndex[i] < |Single.Declared| && SingleWOrder[i] == Single.Declared[SingleWDeclIndex[i]].flag
  {
  }

  /** The pair that passes each declared option; `-1` for `--seed` and `--fps`, which are not passed. */
  const SingleWPairIndex: seq<int> := [0, 1, 2, 3, -1, 8, 4, -1, 5, 6, 7]

  lemma SingleWIndexInverse()
    ensures |SingleWPairIndex| == 11
    ensures forall k :: 0 <= k < 11 && k != 4 && k != 7 ==>
      0 <= SingleWPairIndex[k] < 9 && SingleWDeclIndex[SingleWPairIndex[k]] == k
  {
  }

  lemma SingleWOrderDeclared()
    ensures forall i :: 0 <= i < |SingleWOrder| ==> '=' !in SingleWOrder[i] && SingleWOrder[i] in Flags(Single.Declared)
  {
    SingleWOrderNoEquals();
    SingleWOrderIndexed();
    var fs := Flags(Single.Declared);
    forall i | 0 <= i < |SingleWOrder|
      ensures SingleWOrder[i] in fs
    {
      assert fs[SingleWDeclIndex[i]] == SingleWOrder[i];
    }
  }

  lemma SingleWOrderOmits()
    ensures "seed" !in SingleWOrder && "fps" !in SingleWOrder
  {
  }

  lemma SingleWWellFormed(p: SingleWParams)
    ensures WellFormedFor(SingleWPairs(p), Single.Declared)
  {
    SingleWPairFlags(p);
    SingleWOrderDistinct();
    SingleWOrderDeclared();
  }

  /** Every word `SingleWHandler` passes names a flag `multi_inversion.py` declares. */
  lemma SingleWAccepted(p: SingleWParams)
    ensures Accepted(Flags(Single.Declared), Args(SingleWPairs(p)))
  {
    SingleWWellFormed(p);
    ArgsAccepted(Flags(Single.Declared), SingleWPairs(p));
  }

  /** `--seed` and `--fps` are never passed, so their defaults apply. */
  lemma SingleWOmitsSeedAndFps(p: SingleWParams)
    ensures Passed(Args(SingleWPairs(p)), "seed") == None
    ensures Passed(Args(SingleWPairs(p)), "fps") == None
  {
    var pairs := SingleWPairs(p);
    SingleWWellFormed(p);
    SingleWPairFlags(p);
    SingleWOrderOmits();
    assert forall i :: 0 <= i < |pairs| ==> pairs[i].0 in SingleWOrder;
    PassedOfArgs(pairs, "seed");
    PassedOfArgs(pairs, "fps");
    LookupAbsent(pairs, "seed");
    LookupAbsent(pairs, "fps");
  }

  /** The script receives the handler's values, seed 303 and 30 frames per second. */
  function SingleWReceived(p: SingleWParams): Single.Options {
    Single.Options(p.network, p.dataset, p.numSteps, p.numStepsPti, 303, p.saveVideo, p.outDir, 30, p.numTargets,
                   p.downsampling, p.optimizeCam)
  }

  /** Pair `i` carries the value the script should receive for the option it names. */
  lemma SingleWPairValues(p: SingleWParams)
    ensures |SingleWPairs(p)| == |SingleWDeclIndex| == 9
    ensures forall i :: 0 <= i < 9 ==>
      SingleWDeclIndex[i] < 11 && SingleWPairs(p)[i].1 == Single.Values(SingleWReceived(p))[SingleWDeclIndex[i]]
  {
    var vs := Single.Values(SingleWReceived(p));
    assert vs[0] == VText(p.network) && vs[1] == VText(p.dataset) && vs[2] == VInt(p.numSteps);
    assert vs[3] == VInt(p.numStepsPti) && vs[6] == VText(p.outDir) && vs[8] == VInt(p.numTargets);
    assert vs[9] == VBool(p.downsampling) && vs[10] == VBool(p.optimizeCam) && vs[5] == VBool(p.saveVideo);
  }

  /** Each declared option of `multi_inversion.py` reads as the value the handler meant. */
  lemma SingleWReads(p: SingleWParams)
    ensures forall k :: 0 <= k < |Single.Declared| ==>
      Read(Single.Declared[k], Args(SingleWPairs(p))) == Some(Single.Values(SingleWReceived(p))[k])
  {
    var pairs := SingleWPairs(p);
    var ds := Single.Declared;
    var vs := Single.Values(SingleWReceived(p));
    var idx := SingleWDeclIndex;
    SingleWWellFormed(p);
    SingleWPairFlags(p);
    SingleWOrderIndexed();
    SingleWPairValues(p);
    SingleWIndexInverse();
    Single.TypedIsDeclaredKinds(vs);
    forall i | 0 <= i < 9
      ensures Read(ds[idx[i]], Args(pairs)) == Some(vs[idx[i]])
    {
      ReadPassed(ds[idx[i]], pairs, i);
    }
    SingleWOrderOmits();
    assert ds[4].flag == "seed" && ds[7].flag == "fps";
    assert forall j :: 0 <= j < |pairs| ==> pairs[j].0 in SingleWOrder;
    ReadDefault(ds[4], pairs);
    ReadDefault(ds[7], pairs);
    assert vs[4] == VInt(303) && vs[7] == VInt(30);
    forall k | 0 <= k < |ds|
      ensures Read(ds[k], Args(pairs)) == Some(vs[k])
    {
      if k != 4 && k != 7 {
        assert idx[SingleWPairIndex[k]] == k;
      }
    }
  }

  /**
   * click accepts the words `SingleWHandler` builds and hands
   * `run_projection` exactly the handler's values, with the default seed
   * and frame rate: every required option is passed.
   */
  lemma SingleWParses(p: SingleWParams)
    ensures Single.Parse(Args(SingleWPairs(p))) == Some(SingleWReceived(p))
  {
    var o := SingleWReceived(p);
    SingleWWellFormed(p);
    SingleWReads(p);
    ReadAllOfArgs(Single.Declared, SingleWPairs(p), Single.Values(o));
    Single.FromValuesOfValues(o);
  }

  /** After the time stamp, one name goes on with `_multi_w`, the other with `_multiview_`. */
  lemma MarkersDiffer(t1: string, r1: string, t2: string, r2: string)
    requires '_' !in t1 && '_' !in t2
    ensures "/" + (t1 + ("_multi_w" + r1)) != "/" + (t2 + ("_multiview_" + r2))
  {
    var x1, x2 := "_multi_w" + r1, "_multiview_" + r2;
    var s1, s2 := "/" + (t1 + x1), "/" + (t2 + x2);
    assert s1[1..] == t1 + x1 && s2[1..] == t2 + x2;
    assert x1[0] == '_' && x2[0] == '_';
    SpanOf(t1, x1, '_');
    SpanOf(t2, x2, '_');
    // Seven characters after the time stamp: `_` in one name, `v` in the other.
    assert Span(s1[1..], '_').1[6] == '_';
    assert Span(s2[1..], '_').1[6] == 'v';
  }

  /**
   * The two scripts started at the same `outdir` never share a run
   * directory: their names differ right after the time stamp.
   */
  lemma OutputDirsDiffer(o1: MultiW.Options, t1: string, o2: Single.Options, t2: string)
    requires '_' !in t1 && '_' !in t2 && o1.outdir == o2.outdir
    ensures MultiW.OutputDir(o1, t1) != Single.OutputDir(o2, t2)
  {
    var r1 := "_targets_" + (IntToString(o1.numTargets) + ("_iter_" + (IntToString(o1.numSteps) + ("_" +
      (IntToString(o1.numStepsPti) + (MultiW.FeatureSuffix(o1.useInterpolation, o1.depthReg, o1.wNormReg) +
      ("_data_" + LastSegment(o1.targetFname))))))));
    var r2 := IntToString(o2.numTargets) + ("_iter_" + (IntToString(o2.numSteps) + ("_" +
      (IntToString(o2.numStepsPti) + ("_data_" + LastSegment(o2.targetFname))))));
    MarkersDiffer(t1, r1, t2, r2);
    var d := o1.outdir;
    var n1, n2 := MultiW.RunName(o1, t1), Single.RunName(o2, t2);
    assert (d + n1)[|d|..] == n1 && (d + n2)[|d|..] == n2;
  }
}

/**
 * The renderings both entry scripts make: a view rendered by a generator
 * from a latent with a view's camera, the panel that stacks a view's
 * target image above such a rendering, and a video frame made of panels
 * placed left to right.
 *
 * Generators and latents are opaque: `G` stands for a snapshot of the
 * fine-tuned generator and `W` for a latent code.
 */
module Video {

  /** The generator a rendering uses: the generator object `G` the script passed to both stages, or a snapshot of pivotal tuning. */
  datatype Gen<G> = Loaded | Tuned(snapshot: G)

  /** `gen.synthesis(latent, c=images[camera].c_item.c)`. */
  datatype Synth<W, G> = Synth(gen: Gen<G>, latent: W, camera: nat)

  /** `np.concatenate([images[view].t_uint8, synth], axis=0)`: a target above a rendering. */
  datatype Panel<W, G> = Panel(view: nat, synth: Synth<W, G>)

  /**
   * A frame `np.concatenate(views, axis=1)`: for each selected view, left
   * to right, its target above its rendering from the latent at that
   * position, seen with the view's own camera.
   */
  function Frame<W, G>(gen: Gen<G>, latents: seq<W>, views: seq<nat>): (f: seq<Panel<W, G>>)
    requires |latents| >= |views|
    ensures |f| == |views|
    ensures forall i :: 0 <= i < |views| ==> f[i] == Panel(views[i], Synth(gen, latents[i], views[i]))
  {
    if views == [] then []
    else
      var n := |views| - 1;
      Frame(gen, latents, views[..n]) + [Panel(views[n], Synth(gen, latents[n], views[n]))]
  }

  /** `n` copies of one latent. */
  function Repeat<W>(w: W, n: nat): (ws: seq<W>)
    ensures |ws| == n && forall i :: 0 <= i < n ==> ws[i] == w
  {
    seq(n, _ => w)
  }

  /** The inner loop of the video: one panel for each view, appended left to right. */
  method RenderFrame<W, G>(gen: Gen<G>, latents: seq<W>, views: seq<nat>) returns (frame: seq<Panel<W, G>>)
    requires |latents| >= |views|
    ensures frame == Frame(gen, latents, views)
  {
    frame := [];
    for i := 0 to |views|
      invariant frame == Frame(gen, latents, views[..i])
    {
      assert views[..i + 1][..i] == views[..i];
      frame := frame + [Panel(views[i], Synth(gen, latents[i], views[i]))];
    }
    assert views[..|views|] == views;
  }

  /** The frames of the tuning phase: every snapshot renders the same latents. */
  function TunedFrames<W, G>(latents: seq<W>, views: seq<nat>, snapshots: seq<G>): (fs: seq<seq<Panel<W, G>>>)
    requires |latents| >= |views|
    ensures |fs| == |snapshots|
    ensures forall j :: 0 <= j < |fs| ==> |fs[j]| == |views|
  {
    if snapshots == [] then []
    else
      var n := |snapshots| - 1;
      TunedFrames(latents, views, snapshots[..n]) + [Frame(Tuned(snapshots[n]), latents, views)]
  }

  lemma {:induction false} TunedFramesAt<W, G>(latents: seq<W>, views: seq<nat>, snapshots: seq<G>, j: nat)
    requires |latents| >= |views| && j < |snapshots|
    ensures TunedFrames(latents, views, snapshots)[j] == Frame(Tuned(snapshots[j]), latents, views)
  {
    if j < |snapshots| - 1 {
      TunedFramesAt(latents, views, snapshots[..|snapshots| - 1], j);
    }
  }

  /** The loop over `G_steps`: one frame per snapshot, appended in order. */
  method RenderTuned<W, G>(latents: seq<W>, views: seq<nat>, snapshots: seq<G>) returns (frames: seq<seq<Panel<W, G>>>)
    requires |latents| >= |views|
    ensures frames == TunedFrames(latents, views, snapshots)
  {
    frames := [];
    for j := 0 to |snapshots|
      invariant frames == TunedFrames(latents, views, snapshots[..j])
    {
      assert snapshots[..j + 1][..j] == snapshots[..j];
      var frame := RenderFrame(Tuned(snapshots[j]), latents, views);
      frames := frames + [frame];
    }
    assert snapshots[..|snapshots|] == snapshots;
  }
}

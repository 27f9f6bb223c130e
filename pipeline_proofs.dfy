/** Properties of `preprocess_image`: the enabled stages run in the fixed
    order, disabling every stage leaves the grayscale image, and binarisation
    yields a two-valued image or fails on a bad block size. */
module PipelineProofs {
  import opened Common
  import opened Imaging
  import opened Enhancer

  /** Selecting the enabled stages of a list ordered by rank keeps that order,
      and a stage is selected exactly when it is in the list and enabled. */
  lemma {:induction false} SelectedOrdered(cfg: EnhancerConfig, stages: seq<Stage>)
    requires forall i, j :: 0 <= i < j < |stages| ==> Rank(stages[i]) < Rank(stages[j])
    ensures forall i, j :: 0 <= i < j < |Selected(cfg, stages)| ==>
      Rank(Selected(cfg, stages)[i]) < Rank(Selected(cfg, stages)[j])
    ensures forall s :: s in Selected(cfg, stages) <==> s in stages && Enabled(cfg, s)
  {
    if stages != [] {
      var tail := stages[1..];
      assert forall i, j :: 0 <= i < j < |tail| ==> Rank(tail[i]) < Rank(tail[j]) by {
        forall i, j | 0 <= i < j < |tail| ensures Rank(tail[i]) < Rank(tail[j]) {
          assert tail[i] == stages[i + 1] && tail[j] == stages[j + 1];
        }
      }
      SelectedOrdered(cfg, tail);
      var rest := Selected(cfg, tail);
      forall s | s in rest ensures Rank(stages[0]) < Rank(s) {
        var j :| 0 <= j < |tail| && tail[j] == s;
        assert stages[j + 1] == s;
      }
      assert stages == [stages[0]] + tail;
    }
  }

  /** The enabled stages are listed in the fixed order denoise, CLAHE,
      contrast, sharpen, binarise, and each appears exactly when its flag is set. */
  lemma EnabledStagesInOrder(cfg: EnhancerConfig)
    ensures forall i, j :: 0 <= i < j < |EnabledStages(cfg)| ==>
      Rank(EnabledStages(cfg)[i]) < Rank(EnabledStages(cfg)[j])
    ensures forall s :: s in EnabledStages(cfg) <==> Enabled(cfg, s)
  {
    assert forall i, j :: 0 <= i < j < |StageOrder| ==> Rank(StageOrder[i]) < Rank(StageOrder[j]);
    SelectedOrdered(cfg, StageOrder);
    forall s ensures s in StageOrder {
      match s
      case Denoise => assert StageOrder[0] == s;
      case Equalize => assert StageOrder[1] == s;
      case Scale => assert StageOrder[2] == s;
      case Sharpen => assert StageOrder[3] == s;
      case Binarize => assert StageOrder[4] == s;
    }
  }

  /** The stage `s` runs when enabled and is skipped otherwise. */
  function Guarded(k: Kernels, cfg: EnhancerConfig, s: Stage, g: Grid): Option<Grid> {
    if Enabled(cfg, s) then ApplyStage(k, cfg, s, g) else Some(g)
  }

  /** Every stage of a list, each guarded by its flag, left to right. */
  function RunGuarded(k: Kernels, cfg: EnhancerConfig, stages: seq<Stage>, g: Grid): Option<Grid> {
    if stages == [] then Some(g)
    else
      match Guarded(k, cfg, stages[0], g)
      case None => None
      case Some(next) => RunGuarded(k, cfg, stages[1..], next)
  }

  /** Running only the selected stages is the same as running every stage
      under its own flag. */
  lemma {:induction false} SelectedIsGuarded(k: Kernels, cfg: EnhancerConfig, stages: seq<Stage>, g: Grid)
    ensures RunStages(k, cfg, Selected(cfg, stages), g) == RunGuarded(k, cfg, stages, g)
  {
    if stages != [] {
      var s, rest := stages[0], stages[1..];
      if Enabled(cfg, s) {
        var sel := [s] + Selected(cfg, rest);
        assert Selected(cfg, stages) == sel;
        assert sel[0] == s && sel[1..] == Selected(cfg, rest);
        match ApplyStage(k, cfg, s, g)
        case None =>
        case Some(h) => SelectedIsGuarded(k, cfg, rest, h);
      } else {
        assert Selected(cfg, stages) == [] + Selected(cfg, rest) == Selected(cfg, rest);
        SelectedIsGuarded(k, cfg, rest, g);
      }
    }
  }

  /** `preprocess_image` is grayscale normalisation followed by the enabled
      stages in the fixed order, each fed the previous stage's output; a stage
      that raises stops the pipeline. */
  lemma PreprocessRunsEnabledStages(e: PdfImageEnhancer, k: Kernels, image: Raster)
    ensures e.PreprocessImage(k, image) ==
      match Grayscale(k, image)
      case None => None
      case Some(g) => RunStages(k, e.config, EnabledStages(e.config), g)
  {
    match Grayscale(k, image)
    case None =>
    case Some(g) =>
      SelectedIsGuarded(k, e.config, StageOrder, g);
      GuardedChain(e, k, g);
  }

  lemma GuardedChain(e: PdfImageEnhancer, k: Kernels, g0: Grid)
    ensures e.PreprocessImage(k, Plane(g0)) == RunGuarded(k, e.config, StageOrder, g0)
  {
    var cfg := e.config;
    var t1 := [Equalize, Scale, Sharpen, Binarize];
    var t2 := [Scale, Sharpen, Binarize];
    var t3 := [Sharpen, Binarize];
    var t4 := [Binarize];
    assert StageOrder[0] == Denoise && StageOrder[1..] == t1;
    assert t1[0] == Equalize && t1[1..] == t2;
    assert t2[0] == Scale && t2[1..] == t3;
    assert t3[0] == Sharpen && t3[1..] == t4;
    assert t4[0] == Binarize && t4[1..] == [];
    match Guarded(k, cfg, Denoise, g0)
    case None =>
    case Some(g1) =>
      assert RunGuarded(k, cfg, StageOrder, g0) == RunGuarded(k, cfg, t1, g1);
      match Guarded(k, cfg, Equalize, g1)
      case None =>
      case Some(g2) =>
        assert RunGuarded(k, cfg, t1, g1) == RunGuarded(k, cfg, t2, g2);
        match Guarded(k, cfg, Scale, g2)
        case None =>
        case Some(g3) =>
          assert RunGuarded(k, cfg, t2, g2) == RunGuarded(k, cfg, t3, g3);
          match Guarded(k, cfg, Sharpen, g3)
          case None =>
          case Some(g4) =>
            assert RunGuarded(k, cfg, t3, g3) == RunGuarded(k, cfg, t4, g4);
            match Guarded(k, cfg, Binarize, g4)
            case None =>
            case Some(g5) =>
              assert RunGuarded(k, cfg, t4, g4) == Some(g5);
  }

  /** With every optional stage disabled the result is the grayscale step's output. */
  lemma AllDisabledIsGrayscale(e: PdfImageEnhancer, k: Kernels, image: Raster)
    requires forall s :: !Enabled(e.config, s)
    ensures e.PreprocessImage(k, image) == Grayscale(k, image)
  {
    assert !Enabled(e.config, Denoise) && !Enabled(e.config, Equalize) && !Enabled(e.config, Scale);
    assert !Enabled(e.config, Sharpen) && !Enabled(e.config, Binarize);
  }

  /** A two-dimensional page is passed through grayscale normalisation unchanged. */
  lemma PlaneIsCopied(k: Kernels, g: Grid)
    ensures Grayscale(k, Plane(g)) == Some(g)
  {
  }

  /** With binarisation enabled, every sample of a produced image is 0 or 255. */
  lemma BinarizedIsTwoValued(e: PdfImageEnhancer, k: Kernels, image: Raster)
    requires e.config.binarization.enabled
    requires e.PreprocessImage(k, image).Some?
    ensures TwoValued(e.PreprocessImage(k, image).value)
  {
    PreprocessRunsEnabledStages(e, k, image);
    EnabledStagesInOrder(e.config);
    var sel := EnabledStages(e.config);
    assert Binarize in sel;
    var b :| 0 <= b < |sel| && sel[b] == Binarize;
    assert b == |sel| - 1 || Rank(sel[b]) < Rank(sel[|sel| - 1]);
    var g :| Grayscale(k, image) == Some(g);
    LastStageDecides(k, e.config, sel, g);
  }

  /** A stage list ending in binarisation produces only two-valued images. */
  lemma {:induction false} LastStageDecides(k: Kernels, cfg: EnhancerConfig, stages: seq<Stage>, g: Grid)
    requires stages != [] && stages[|stages| - 1] == Binarize
    requires RunStages(k, cfg, stages, g).Some?
    ensures TwoValued(RunStages(k, cfg, stages, g).value)
  {
    var next := ApplyStage(k, cfg, stages[0], g);
    if |stages| > 1 {
      LastStageDecides(k, cfg, stages[1..], next.value);
    }
  }

  /** With binarisation enabled and a block size OpenCV rejects (even, or not
      above 1), preprocessing raises for every page. */
  lemma BadBlockSizeFails(e: PdfImageEnhancer, k: Kernels, image: Raster)
    requires e.config.binarization.enabled
    requires !(e.config.binarization.blockSize > 1 && e.config.binarization.blockSize % 2 == 1)
    ensures e.PreprocessImage(k, image).None?
  {
  }
}

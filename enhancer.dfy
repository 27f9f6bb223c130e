/** The PDF image enhancer: its configuration, the per-page preprocessing
    pipeline, and the page orchestration of `process_pdf` (rasterise every
    page, enhance it, write it as a page image, assemble the images into one
    document, then delete the page images and the two work directories). */
module Enhancer {
  import opened Common
  import opened Text
  import opened Paths
  import opened Imaging
  import opened Files

  datatype Denoising = Denoising(enabled: bool, h: int, templateWindowSize: int, searchWindowSize: int)
  datatype Clahe = Clahe(enabled: bool, clipLimit: real, tileGridX: int, tileGridY: int)
  datatype Contrast = Contrast(enabled: bool, alpha: real, beta: real)
  datatype Sharpening = Sharpening(enabled: bool, sigma: real, amount: real, gaussianWeight: real)
  datatype Binarization = Binarization(enabled: bool, blockSize: int, c: int)

  /** The enhancer configuration: one block per optional stage, the directories
      and the rasterisation resolution in dots per inch. */
  datatype EnhancerConfig = EnhancerConfig(
    denoising: Denoising,
    clahe: Clahe,
    contrast: Contrast,
    sharpening: Sharpening,
    binarization: Binarization,
    baseDir: Path,
    uploadDir: Path,
    resolution: int)

  /** The optional stages that follow grayscale normalisation. */
  datatype Stage = Denoise | Equalize | Scale | Sharpen | Binarize

  /** The fixed order in which the optional stages run. */
  const StageOrder: seq<Stage> := [Denoise, Equalize, Scale, Sharpen, Binarize]

  function Rank(s: Stage): nat {
    match s
    case Denoise => 0
    case Equalize => 1
    case Scale => 2
    case Sharpen => 3
    case Binarize => 4
  }

  function Enabled(cfg: EnhancerConfig, s: Stage): bool {
    match s
    case Denoise => cfg.denoising.enabled
    case Equalize => cfg.clahe.enabled
    case Scale => cfg.contrast.enabled
    case Sharpen => cfg.sharpening.enabled
    case Binarize => cfg.binarization.enabled
  }

  /** One optional stage with the parameters its configuration block holds. */
  function ApplyStage(k: Kernels, cfg: EnhancerConfig, s: Stage, g: Grid): Option<Grid> {
    match s
    case Denoise =>
      k.nlMeansDenoising(g, cfg.denoising.h, cfg.denoising.templateWindowSize, cfg.denoising.searchWindowSize)
    case Equalize =>
      k.clahe(g, cfg.clahe.clipLimit, cfg.clahe.tileGridX, cfg.clahe.tileGridY)
    case Scale =>
      k.convertScaleAbs(g, cfg.contrast.alpha, cfg.contrast.beta)
    case Sharpen =>
      var blurred :- k.gaussianBlur(g, cfg.sharpening.sigma);
      k.addWeighted(g, cfg.sharpening.amount, blurred, cfg.sharpening.gaussianWeight)
    case Binarize =>
      AdaptiveThresholdBinary(k, g, cfg.binarization.blockSize, cfg.binarization.c)
  }

  /** Reference semantics of a stage list: apply the stages left to right,
      stopping at the first one that raises. */
  function RunStages(k: Kernels, cfg: EnhancerConfig, stages: seq<Stage>, g: Grid): Option<Grid> {
    if stages == [] then Some(g)
    else
      match ApplyStage(k, cfg, stages[0], g)
      case None => None
      case Some(next) => RunStages(k, cfg, stages[1..], next)
  }

  /** The stages of `stages` whose flag is set, in their order. */
  function Selected(cfg: EnhancerConfig, stages: seq<Stage>): seq<Stage> {
    if stages == [] then []
    else (if Enabled(cfg, stages[0]) then [stages[0]] else []) + Selected(cfg, stages[1..])
  }

  function EnabledStages(cfg: EnhancerConfig): seq<Stage> {
    Selected(cfg, StageOrder)
  }

  /** Step 1 of preprocessing: an array of more than two dimensions is converted
      to one channel; a two-dimensional one is copied unchanged. */
  function Grayscale(k: Kernels, image: Raster): Option<Grid> {
    match image
    case Channels(pixels) => k.bgrToGray(pixels)
    case Plane(g) => Some(g)
  }

  /** The outcome of the `try` block for one page. */
  datatype Attempt =
    | Failed                  // rasterising, enhancing or writing raised
    | Written(image: Grid)    // cv2.imwrite wrote the page image
    | Unwritten(image: Grid)  // cv2.imwrite returned False without raising

  /** What the external collaborators of `process_pdf` do. */
  datatype Documents = Documents(
    pageCount: Blob -> Option<nat>,             // pdfinfo_from_path(...)['Pages']
    rasterize: (Blob, int, nat) -> Option<Raster>, // convert_from_path(..., dpi, first_page=i, last_page=i)[0]
    imwrite: (Path, Grid) -> WriteOutcome,      // cv2.imwrite
    savePdf: (Path, seq<Grid>) -> bool)         // PIL multi-page save

  datatype WriteOutcome = Saved | NotSaved | WriteRaised

  /** The page loop's state after some pages: the pages whose path was
      appended, `enhanced_paths`, and the filesystem. */
  datatype LoopState = LoopState(pages: seq<nat>, paths: seq<Path>, fs: FileSystem)

  /** `PDFImageEnhancer`: the configuration and the directory layout fixed by `__init__`. */
  datatype PdfImageEnhancer = PdfImageEnhancer(
    config: EnhancerConfig,
    baseDir: Path,
    uploadDir: Path,
    tempDir: Path,
    enhancedDir: Path)
  {
    /** `preprocess_image`: grayscale normalisation, then each optional stage
        whose flag is set, in the fixed order; `None` when a kernel raises. */
    function PreprocessImage(k: Kernels, image: Raster): Option<Grid> {
      var g0 :- Grayscale(k, image);
      var g1 :- if config.denoising.enabled then ApplyStage(k, config, Denoise, g0) else Some(g0);
      var g2 :- if config.clahe.enabled then ApplyStage(k, config, Equalize, g1) else Some(g1);
      var g3 :- if config.contrast.enabled then ApplyStage(k, config, Scale, g2) else Some(g2);
      var g4 :- if config.sharpening.enabled then ApplyStage(k, config, Sharpen, g3) else Some(g3);
      var g5 :- if config.binarization.enabled then ApplyStage(k, config, Binarize, g4) else Some(g4);
      Some(g5)
    }

    /** `os.makedirs` of the upload directory and the two work directories. */
    function WorkDirsCreated(fs: FileSystem): FileSystem {
      MakeDirs(MakeDirs(MakeDirs(fs, uploadDir), tempDir), enhancedDir)
    }

    /** Page `i`'s image: `enhanced_dir/page_<i, zero-padded to 3 digits>.png`. */
    function PageArtifact(i: nat): Path {
      Join(enhancedDir, "page_" + Pad3(i) + ".png")
    }

    /** The `try` block for page `i`, reading the document `source`. */
    function AttemptPage(docs: Documents, k: Kernels, source: Option<Blob>, dpi: int, i: nat): Attempt {
      match source
      case None => Failed
      case Some(b) =>
        match docs.rasterize(b, dpi, i)
        case None => Failed
        case Some(raster) =>
          match PreprocessImage(k, raster)
          case None => Failed
          case Some(g) =>
            match docs.imwrite(PageArtifact(i), g)
            case WriteRaised => Failed
            case Saved => Written(g)
            case NotSaved => Unwritten(g)
    }

    /** One pass of the page loop: the document is read from the current filesystem. */
    function PageStep(docs: Documents, k: Kernels, input: Path, dpi: int, s: LoopState, i: nat): LoopState {
      match AttemptPage(docs, k, Lookup(s.fs, input), dpi, i)
      case Failed => s
      case Written(g) =>
        LoopState(s.pages + [i], s.paths + [PageArtifact(i)], Write(s.fs, PageArtifact(i), Png(g)))
      case Unwritten(_) =>
        LoopState(s.pages + [i], s.paths + [PageArtifact(i)], s.fs)
    }

    /** The page loop after pages 1..m. */
    function PagesThrough(docs: Documents, k: Kernels, input: Path, dpi: int, fs: FileSystem, m: nat): LoopState {
      if m == 0 then LoopState([], [], fs)
      else PageStep(docs, k, input, dpi, PagesThrough(docs, k, input, dpi, fs, m - 1), m)
    }

    /** The cleanup after a successful save: remove every page image, then the
        temporary and the enhanced directory; stops at the first call that raises. */
    function Cleanup(fs: FileSystem, paths: seq<Path>): (Option<Fault>, FileSystem) {
      match RemoveEach(fs, paths)
      case (Some(e), partial) => (Some(e), partial)
      case (None, removed) =>
        match Rmdir(removed, tempDir)
        case Raised(e) => (Some(e), removed)
        case Ok(noTemp) =>
          match Rmdir(noTemp, enhancedDir)
          case Raised(e) => (Some(e), noTemp)
          case Ok(done) => (None, done)
    }

    /** Everything after the page loop: open the page images, save them as one
        document (which raises on an empty list), then clean up. */
    function Finish(docs: Documents, fs: FileSystem, paths: seq<Path>, output: Path): (Option<Fault>, FileSystem) {
      match OpenAll(fs, paths)
      case Raised(e) => (Some(e), fs)
      case Ok(images) =>
        if |images| == 0 then (Some(IndexError), fs)
        else if !docs.savePdf(output, images) then (Some(SaveError(output)), fs)
        else Cleanup(Write(fs, output, Pdf(images)), paths)
    }

    /** `process_pdf` as a function of the filesystem it starts from: the
        exception it raises, if any, and the filesystem it leaves. */
    function Run(docs: Documents, k: Kernels, fs: FileSystem, input: Path, output: Path, dpi: int): (Option<Fault>, FileSystem) {
      if input !in fs.files then (Some(AssertionError(input)), fs)
      else
        match docs.pageCount(fs.files[input])
        case None => (Some(PageCountError(input)), fs)
        case Some(n) =>
          var s := PagesThrough(docs, k, input, dpi, fs, n);
          Finish(docs, s.fs, s.paths, output)
    }

    /** `process_pdf(input, output, resolution)` over a filesystem value. */
    method ProcessPdf(docs: Documents, k: Kernels, fs: FileSystem, input: Path, output: Path, resolution: int)
      returns (fault: Option<Fault>, after: FileSystem)
      ensures (fault, after) == Run(docs, k, fs, input, output, resolution)
    {
      if input !in fs.files {
        return Some(AssertionError(input)), fs;
      }
      var count := docs.pageCount(fs.files[input]);
      if count.None? {
        return Some(PageCountError(input)), fs;
      }
      var pageCount := count.value;
      var enhancedPaths: seq<Path> := [];
      ghost var pages: seq<nat> := [];
      var current := fs;
      for i := 1 to pageCount + 1
        invariant LoopState(pages, enhancedPaths, current) == PagesThrough(docs, k, input, resolution, fs, i - 1)
      {
        var source := Lookup(current, input);
        var raster := if source.Some? then docs.rasterize(source.value, resolution, i) else None;
        if raster.Some? {
          var enhanced := PreprocessImage(k, raster.value);
          if enhanced.Some? {
            var path := PageArtifact(i);
            var written := docs.imwrite(path, enhanced.value);
            if written != WriteRaised {
              if written == Saved {
                current := Write(current, path, Png(enhanced.value));
              }
              enhancedPaths := enhancedPaths + [path];
              pages := pages + [i];
            }
          }
        }
      }

      var loaded := OpenAll(current, enhancedPaths);
      if loaded.Raised? {
        return Some(loaded.fault), current;
      }
      var images := loaded.value;
      if |images| == 0 {
        return Some(IndexError), current;
      }
      if !docs.savePdf(output, images) {
        return Some(SaveError(output)), current;
      }
      current := Write(current, output, Pdf(images));

      ghost var saved := current;
      var j := 0;
      while j < |enhancedPaths|
        invariant 0 <= j <= |enhancedPaths|
        invariant RemoveEach(saved, enhancedPaths) == RemoveEach(current, enhancedPaths[j..])
      {
        assert enhancedPaths[j..][1..] == enhancedPaths[j + 1..];
        var removed := Remove(current, enhancedPaths[j]);
        if removed.Raised? {
          return Some(removed.fault), current;
        }
        current := removed.value;
        j := j + 1;
      }

      var noTemp := Rmdir(current, tempDir);
      if noTemp.Raised? {
        return Some(noTemp.fault), current;
      }
      var done := Rmdir(noTemp.value, enhancedDir);
      if done.Raised? {
        return Some(done.fault), noTemp.value;
      }
      return None, done.value;
    }
  }

  /** `PDFImageEnhancer.__init__`: the temporary and enhanced directories sit
      in the upload directory. */
  function NewEnhancer(config: EnhancerConfig): (e: PdfImageEnhancer)
    ensures e.config == config && e.baseDir == config.baseDir && e.uploadDir == config.uploadDir
    ensures e.tempDir == Join(config.uploadDir, "temp_images")
    ensures e.enhancedDir == Join(config.uploadDir, "enhanced_images")
  {
    PdfImageEnhancer(config, config.baseDir, config.uploadDir,
                     Join(config.uploadDir, "temp_images"), Join(config.uploadDir, "enhanced_images"))
  }

  /** What the page loop reads for the document at `p`. */
  function Lookup(fs: FileSystem, p: Path): Option<Blob> {
    if p in fs.files then Some(fs.files[p]) else None
  }

  /** `[Image.open(path) for path in paths]`: raises at the first path that is
      not a page image. */
  function OpenAll(fs: FileSystem, paths: seq<Path>): Result<seq<Grid>> {
    if paths == [] then Ok([])
    else
      var first :- OpenImage(fs, paths[0]);
      var rest :- OpenAll(fs, paths[1..]);
      Ok([first] + rest)
  }

  /** `for path in paths: os.remove(path)`: stops at the first path that raises. */
  function RemoveEach(fs: FileSystem, paths: seq<Path>): (Option<Fault>, FileSystem)
    decreases |paths|
  {
    if paths == [] then (None, fs)
    else
      match Remove(fs, paths[0])
      case Raised(e) => (Some(e), fs)
      case Ok(next) => RemoveEach(next, paths[1..])
  }
}

/** Properties of `PDFImageEnhancer.__init__` and `process_pdf`: the directory
    layout, the page artifacts' names, which pages end up in `enhanced_paths`
    and in what order, what the cleanup deletes, and the filesystem a run
    leaves behind when it succeeds and when no page succeeds. */
module OrchestrationProofs {
  import opened Common
  import opened Text
  import opened Paths
  import opened Imaging
  import opened Files
  import opened Enhancer

  // ----- Directory layout and page artifact names -----

  predicate DirShape(d: Path) {
    d != [] && !EndsWith(d, "/")
  }

  /** Two names that differ in their first character, put after the same
      prefix, give two paths neither inside the other and with nothing inside both. */
  lemma SiblingsDisjoint(pre: string, a: string, b: string)
    requires a != [] && b != [] && a[0] != b[0]
    ensures pre + a != pre + b
    ensures !Under(pre + a, pre + b) && !Under(pre + b, pre + a)
    ensures forall p :: !(Under(p, pre + a) && Under(p, pre + b))
  {
    var n := |pre|;
    assert (pre + a)[n] == a[0] && (pre + b)[n] == b[0];
    assert (pre + a + "/")[n] == a[0] && (pre + b + "/")[n] == b[0];
    forall p ensures !(Under(p, pre + a) && Under(p, pre + b)) {
      if Under(p, pre + a) {
        assert p[n] == (pre + a + "/")[n];
      }
      if Under(p, pre + b) {
        assert p[n] == (pre + b + "/")[n];
      }
    }
  }

  /** `__init__` puts `temp_images` and `enhanced_images` in the upload
      directory: two distinct directories, neither inside the other, with no
      path inside both. */
  lemma WorkDirLayout(config: EnhancerConfig)
    ensures var e := NewEnhancer(config);
      DirShape(e.tempDir) && DirShape(e.enhancedDir) && e.tempDir != e.enhancedDir
      && !Under(e.tempDir, e.enhancedDir) && !Under(e.enhancedDir, e.tempDir)
      && (forall p :: !(Under(p, e.tempDir) && Under(p, e.enhancedDir)))
      && (DirShape(config.uploadDir) ==> Under(e.tempDir, config.uploadDir) && Under(e.enhancedDir, config.uploadDir))
  {
    var u := config.uploadDir;
    assert "temp_images"[..1] == "t" && "enhanced_images"[..1] == "e";
    JoinRelative(u, "temp_images");
    JoinRelative(u, "enhanced_images");
    JoinShape(u, "temp_images");
    JoinShape(u, "enhanced_images");
    assert u + Glue(u) + "temp_images" == (u + Glue(u)) + "temp_images";
    SiblingsDisjoint(u + Glue(u), "temp_images", "enhanced_images");
    if DirShape(u) {
      JoinUnder(u, "temp_images");
      JoinUnder(u, "enhanced_images");
    }
  }

  /** Page `i`'s image is `enhanced_dir/page_` followed by `i` zero-padded to
      at least three digits and `.png`, and lies inside the enhanced directory. */
  lemma PageArtifactShape(e: PdfImageEnhancer, i: nat)
    requires DirShape(e.enhancedDir)
    ensures e.PageArtifact(i) == e.enhancedDir + "/" + "page_" + Pad3(i) + ".png"
    ensures Under(e.PageArtifact(i), e.enhancedDir)
    ensures AllDigits(Pad3(i)) && |Pad3(i)| >= 3 && DecimalValue(Pad3(i)) == i
  {
    var name := "page_" + Pad3(i) + ".png";
    assert name[0] == 'p';
    JoinRelative(e.enhancedDir, name);
    JoinUnder(e.enhancedDir, name);
    Pad3Properties(i);
  }

  /** Different pages get different image paths. */
  lemma PageArtifactInjective(e: PdfImageEnhancer, i: nat, j: nat)
    requires e.PageArtifact(i) == e.PageArtifact(j)
    ensures i == j
  {
    var a, b := "page_" + Pad3(i) + ".png", "page_" + Pad3(j) + ".png";
    assert a[0] == 'p' && b[0] == 'p';
    JoinInjective(e.enhancedDir, a, b);
    assert Pad3(i) == a[5..|a| - 4];
    assert Pad3(j) == b[5..|b| - 4];
    Pad3Injective(i, j);
  }

  // ----- The page loop -----

  /** The outcome of each page's `try` block when every page reads the
      document `blob`: element `x` is page `x + 1`. */
  function Outcomes(e: PdfImageEnhancer, docs: Documents, k: Kernels, blob: Blob, dpi: int, m: nat): seq<Attempt> {
    seq(m, x requires 0 <= x < m => e.AttemptPage(docs, k, Some(blob), dpi, x + 1))
  }

  function ImageOf(a: Attempt): Grid {
    match a
    case Failed => []
    case Written(g) => g
    case Unwritten(g) => g
  }

  /** Reference list of the pages (numbered from 1) whose `try` block completed, ascending. */
  function Listed(outs: seq<Attempt>): seq<nat> {
    if outs == [] then []
    else Listed(outs[..|outs| - 1]) + (if outs[|outs| - 1].Failed? then [] else [|outs|])
  }

  /** The enhanced images of the completed pages, in page order. */
  function Images(outs: seq<Attempt>): seq<Grid> {
    if outs == [] then []
    else Images(outs[..|outs| - 1]) + (if outs[|outs| - 1].Failed? then [] else [ImageOf(outs[|outs| - 1])])
  }

  /** The page images the written pages leave behind, keyed by their path
      under the naming `art`. */
  function WrittenImages(art: nat -> Path, outs: seq<Attempt>): map<Path, Blob> {
    if outs == [] then map[]
    else
      var w := WrittenImages(art, outs[..|outs| - 1]);
      match outs[|outs| - 1]
      case Written(g) => w[art(|outs|) := Png(g)]
      case _ => w
  }

  /** The listed pages are exactly the pages whose `try` block completed, in
      strictly ascending order, and the images are theirs, in the same order. */
  lemma ListedExactly(outs: seq<Attempt>)
    ensures var pages := Listed(outs);
      |Images(outs)| == |pages|
      && (forall x :: 0 <= x < |pages| ==> 1 <= pages[x] <= |outs| && Images(outs)[x] == ImageOf(outs[pages[x] - 1]))
      && (forall x, y :: 0 <= x < y < |pages| ==> pages[x] < pages[y])
      && (forall j :: j in pages <==> 1 <= j <= |outs| && !outs[j - 1].Failed?)
  {
    ListedImages(outs);
    ListedAscending(outs);
    ListedMembers(outs);
  }

  /** One image per listed page, that page's, in the same order. */
  lemma {:induction false} ListedImages(outs: seq<Attempt>)
    ensures |Images(outs)| == |Listed(outs)|
    ensures forall x :: 0 <= x < |Listed(outs)| ==>
      1 <= Listed(outs)[x] <= |outs| && Images(outs)[x] == ImageOf(outs[Listed(outs)[x] - 1])
  {
    if outs != [] {
      var init := outs[..|outs| - 1];
      ListedImages(init);
      var prev, imgs := Listed(init), Images(init);
      var last := outs[|outs| - 1];
      forall x | 0 <= x < |prev| ensures outs[prev[x] - 1] == init[prev[x] - 1] {
      }
      if !last.Failed? {
        var pages, images := prev + [|outs|], imgs + [ImageOf(last)];
        assert Listed(outs) == pages && Images(outs) == images;
        forall x | 0 <= x < |pages| ensures 1 <= pages[x] <= |outs| && images[x] == ImageOf(outs[pages[x] - 1]) {
          if x < |prev| {
            assert pages[x] == prev[x] && images[x] == imgs[x];
          }
        }
      } else {
        assert Listed(outs) == prev + [] && Images(outs) == imgs + [];
      }
    }
  }

  /** The listed pages lie in 1..|outs| and ascend strictly. */
  lemma {:induction false} ListedAscending(outs: seq<Attempt>)
    ensures forall x :: 0 <= x < |Listed(outs)| ==> 1 <= Listed(outs)[x] <= |outs|
    ensures forall x, y :: 0 <= x < y < |Listed(outs)| ==> Listed(outs)[x] < Listed(outs)[y]
  {
    if outs != [] {
      var init := outs[..|outs| - 1];
      ListedAscending(init);
      var prev := Listed(init);
      if !outs[|outs| - 1].Failed? {
        var pages := prev + [|outs|];
        assert Listed(outs) == pages;
        forall x | 0 <= x < |pages| ensures 1 <= pages[x] <= |outs| {
          if x < |prev| {
            assert pages[x] == prev[x];
          }
        }
        forall x, y | 0 <= x < y < |pages| ensures pages[x] < pages[y] {
          assert pages[x] == prev[x];
          if y < |prev| {
            assert pages[y] == prev[y];
          }
        }
      } else {
        assert Listed(outs) == prev + [];
      }
    }
  }

  /** A page is listed exactly when its `try` block completed. */
  lemma {:induction false} ListedMembers(outs: seq<Attempt>)
    ensures forall j :: j in Listed(outs) <==> 1 <= j <= |outs| && !outs[j - 1].Failed?
  {
    if outs != [] {
      var init := outs[..|outs| - 1];
      ListedMembers(init);
      var prev := Listed(init);
      var last := if outs[|outs| - 1].Failed? then [] else [|outs|];
      var pages := prev + last;
      assert Listed(outs) == pages;
      forall j ensures j in pages <==> 1 <= j <= |outs| && !outs[j - 1].Failed? {
        assert j in pages <==> j in prev || j in last;
        if 1 <= j < |outs| {
          assert outs[j - 1] == init[j - 1];
        }
      }
    }
  }

  /** Whatever the collaborators do, after pages 1..m the loop has appended
      one path per listed page, `PageArtifact` of that page, pages strictly
      ascending within 1..m, and has created or removed no directory. */
  lemma {:induction false} LoopShape(e: PdfImageEnhancer, docs: Documents, k: Kernels, input: Path, dpi: int, fs: FileSystem, m: nat)
    ensures var s := e.PagesThrough(docs, k, input, dpi, fs, m);
      |s.pages| == |s.paths| && s.fs.dirs == fs.dirs
      && (forall x :: 0 <= x < |s.pages| ==> 1 <= s.pages[x] <= m && s.paths[x] == e.PageArtifact(s.pages[x]))
      && (forall x, y :: 0 <= x < y < |s.pages| ==> s.pages[x] < s.pages[y])
  {
    if m > 0 {
      LoopShape(e, docs, k, input, dpi, fs, m - 1);
    }
  }

  /** The naming of page images `process_pdf` uses, as a function value. */
  function Artifacts(e: PdfImageEnhancer): nat -> Path {
    (i: nat) => e.PageArtifact(i)
  }

  /** A naming of page images that gives every page its own path inside `dir`. */
  ghost predicate Naming(art: nat -> Path, dir: Path) {
    (forall i :: Under(art(i), dir)) && (forall i, j :: art(i) == art(j) ==> i == j)
  }

  lemma ArtifactsNaming(e: PdfImageEnhancer)
    requires DirShape(e.enhancedDir)
    ensures Naming(Artifacts(e), e.enhancedDir)
  {
    forall i ensures Under(Artifacts(e)(i), e.enhancedDir) {
      PageArtifactShape(e, i);
    }
    forall i, j | Artifacts(e)(i) == Artifacts(e)(j) ensures i == j {
      PageArtifactInjective(e, i, j);
    }
  }

  /** One pass of the page loop once the outcome of page `i`'s `try` block is
      known: the same loop as `PageStep`, abstracted over the page outcomes
      and the naming for these proofs (`LoopWithFixedDocument` ties the two). */
  function Advance(art: nat -> Path, s: LoopState, i: nat, a: Attempt): LoopState {
    match a
    case Failed => s
    case Written(g) => LoopState(s.pages + [i], s.paths + [art(i)], Write(s.fs, art(i), Png(g)))
    case Unwritten(_) => LoopState(s.pages + [i], s.paths + [art(i)], s.fs)
  }

  /** The page loop driven by a sequence of page outcomes, naming page images by `art`. */
  function LoopOf(art: nat -> Path, fs: FileSystem, outs: seq<Attempt>): LoopState {
    if outs == [] then LoopState([], [], fs)
    else Advance(art, LoopOf(art, fs, outs[..|outs| - 1]), |outs|, outs[|outs| - 1])
  }

  /** Driven by page outcomes, the loop lists exactly the completed pages and
      appends the path of each. */
  lemma {:induction false} LoopOfLists(art: nat -> Path, fs: FileSystem, outs: seq<Attempt>)
    ensures var s := LoopOf(art, fs, outs);
      |s.pages| == |s.paths| && s.pages == Listed(outs)
      && (forall x :: 0 <= x < |s.pages| ==> s.paths[x] == art(s.pages[x]))
  {
    if outs != [] {
      LoopOfLists(art, fs, outs[..|outs| - 1]);
    }
  }

  /** The loop adds the written page images to the files and touches nothing else. */
  lemma {:induction false} LoopOfFiles(art: nat -> Path, fs: FileSystem, outs: seq<Attempt>)
    ensures LoopOf(art, fs, outs).fs == FileSystem(fs.files + WrittenImages(art, outs), fs.dirs)
  {
    if outs != [] {
      var init := outs[..|outs| - 1];
      LoopOfFiles(art, fs, init);
      match outs[|outs| - 1]
      case Failed =>
      case Unwritten(g) =>
      case Written(g) =>
        var w0 := WrittenImages(art, init);
        assert (fs.files + w0)[art(|outs|) := Png(g)] == fs.files + w0[art(|outs|) := Png(g)];
    }
  }

  /** Only written pages' paths carry an image, and with a naming that gives
      each page its own path, every written page's path holds that page's image. */
  lemma {:induction false} WrittenImagesExactly(art: nat -> Path, dir: Path, outs: seq<Attempt>)
    requires Naming(art, dir)
    ensures var w := WrittenImages(art, outs);
      (forall p :: p in w ==> Under(p, dir) && exists j :: 1 <= j <= |outs| && outs[j - 1].Written? && p == art(j))
      && (forall j :: 1 <= j <= |outs| && outs[j - 1].Written? ==> art(j) in w && w[art(j)] == Png(ImageOf(outs[j - 1])))
  {
    if outs != [] {
      var m := |outs|;
      var init := outs[..m - 1];
      WrittenImagesExactly(art, dir, init);
      var w0 := WrittenImages(art, init);
      var w := WrittenImages(art, outs);
      forall p | p in w ensures Under(p, dir) && exists j :: 1 <= j <= m && outs[j - 1].Written? && p == art(j) {
        if p in w0 {
          var j :| 1 <= j <= m - 1 && init[j - 1].Written? && p == art(j);
          assert outs[j - 1] == init[j - 1];
        } else {
          assert outs[m - 1].Written? && p == art(m);
        }
      }
      forall j | 1 <= j <= m && outs[j - 1].Written? ensures art(j) in w && w[art(j)] == Png(ImageOf(outs[j - 1])) {
        if j < m {
          assert outs[j - 1] == init[j - 1];
          assert art(j) != art(m);
        }
      }
    }
  }

  /** When the document is not inside the enhanced directory, no page image
      overwrites it, so every page reads the same document and the loop is
      driven by that document's page outcomes. */
  lemma {:induction false} LoopWithFixedDocument(e: PdfImageEnhancer, docs: Documents, k: Kernels, input: Path, dpi: int, fs: FileSystem, m: nat)
    requires DirShape(e.enhancedDir)
    requires input in fs.files && !Under(input, e.enhancedDir)
    ensures e.PagesThrough(docs, k, input, dpi, fs, m) == LoopOf(Artifacts(e), fs, Outcomes(e, docs, k, fs.files[input], dpi, m))
  {
    if m > 0 {
      var blob := fs.files[input];
      var outs := Outcomes(e, docs, k, blob, dpi, m);
      var init := Outcomes(e, docs, k, blob, dpi, m - 1);
      assert outs[..m - 1] == init;
      LoopWithFixedDocument(e, docs, k, input, dpi, fs, m - 1);
      ArtifactsNaming(e);
      LoopOfFiles(Artifacts(e), fs, init);
      WrittenImagesExactly(Artifacts(e), e.enhancedDir, init);
      var prev := LoopOf(Artifacts(e), fs, init);
      assert input !in WrittenImages(Artifacts(e), init);
      assert Lookup(prev.fs, input) == Some(blob);
      assert e.AttemptPage(docs, k, Some(blob), dpi, m) == outs[m - 1];
    }
  }

  /** When every completed page was also written, opening the listed paths
      after the loop gives the enhanced images of the completed pages. */
  lemma LoopImagesOpen(art: nat -> Path, dir: Path, fs: FileSystem, outs: seq<Attempt>)
    requires Naming(art, dir)
    requires forall x :: 0 <= x < |outs| ==> !outs[x].Unwritten?
    ensures var s := LoopOf(art, fs, outs);
      OpenAll(s.fs, s.paths) == Ok(Images(outs))
  {
    var s := LoopOf(art, fs, outs);
    assert |Images(outs)| == |s.paths| by {
      LoopOfLists(art, fs, outs);
      ListedExactly(outs);
    }
    forall x | 0 <= x < |s.paths| ensures s.paths[x] in s.fs.files && s.fs.files[s.paths[x]] == Png(Images(outs)[x]) {
      ListedPathHolds(art, dir, fs, outs, x);
    }
    OpenAllImages(s.fs, s.paths);
    var loaded := OpenAll(s.fs, s.paths).value;
    assert forall x :: 0 <= x < |loaded| ==> loaded[x] == Images(outs)[x];
    assert loaded == Images(outs);
  }

  lemma ListedPathHolds(art: nat -> Path, dir: Path, fs: FileSystem, outs: seq<Attempt>, x: nat)
    requires Naming(art, dir)
    requires forall x :: 0 <= x < |outs| ==> !outs[x].Unwritten?
    requires x < |LoopOf(art, fs, outs).paths|
    ensures var s := LoopOf(art, fs, outs);
      |Images(outs)| == |s.paths|
      && s.paths[x] in s.fs.files && s.fs.files[s.paths[x]] == Png(Images(outs)[x])
  {
    var s := LoopOf(art, fs, outs);
    var w := WrittenImages(art, outs);
    LoopOfLists(art, fs, outs);
    LoopOfFiles(art, fs, outs);
    WrittenImagesExactly(art, dir, outs);
    ListedExactly(outs);
    var j := s.pages[x];
    assert j in Listed(outs);
    assert outs[j - 1].Written?;
    assert s.paths[x] == art(j) && art(j) in w;
  }

  /** The listed paths are distinct and all inside the enhanced directory. */
  lemma LoopPathsDistinct(art: nat -> Path, dir: Path, fs: FileSystem, outs: seq<Attempt>)
    requires Naming(art, dir)
    ensures var s := LoopOf(art, fs, outs);
      (forall x :: 0 <= x < |s.paths| ==> Under(s.paths[x], dir))
      && (forall x, y :: 0 <= x < y < |s.paths| ==> s.paths[x] != s.paths[y])
  {
    var s := LoopOf(art, fs, outs);
    LoopOfLists(art, fs, outs);
    ListedExactly(outs);
    forall x | 0 <= x < |s.paths| ensures Under(s.paths[x], dir) {
      assert s.paths[x] == art(s.pages[x]);
    }
    forall x, y | 0 <= x < y < |s.paths| ensures s.paths[x] != s.paths[y] {
      assert s.pages[x] < s.pages[y];
      assert s.paths[x] == art(s.pages[x]) && s.paths[y] == art(s.pages[y]);
    }
  }

  // ----- Opening, removing, cleaning up -----

  /** Opening paths that all hold page images yields those images in order. */
  lemma {:induction false} OpenAllImages(fs: FileSystem, paths: seq<Path>)
    requires forall x :: 0 <= x < |paths| ==> paths[x] in fs.files && fs.files[paths[x]].Png?
    ensures OpenAll(fs, paths).Ok? && |OpenAll(fs, paths).value| == |paths|
    ensures forall x :: 0 <= x < |paths| ==> OpenAll(fs, paths).value[x] == fs.files[paths[x]].pixels
  {
    if paths != [] {
      var rest := paths[1..];
      forall x | 0 <= x < |rest| ensures rest[x] in fs.files && fs.files[rest[x]].Png? {
        assert rest[x] == paths[x + 1];
      }
      OpenAllImages(fs, rest);
      assert OpenImage(fs, paths[0]) == Ok(fs.files[paths[0]].pixels);
      var r := OpenAll(fs, rest).value;
      assert OpenAll(fs, paths) == Ok([fs.files[paths[0]].pixels] + r);
      forall x | 0 <= x < |paths| ensures OpenAll(fs, paths).value[x] == fs.files[paths[x]].pixels {
        if x > 0 {
          assert paths[x] == rest[x - 1];
        }
      }
    }
  }

  /** `os.remove` of each path in turn deletes nothing but those paths and
      touches no directory; it succeeds when the paths are distinct files, and
      on success the files are the old ones minus the paths. */
  lemma {:induction false} RemoveEachEffect(fs: FileSystem, paths: seq<Path>)
    decreases |paths|
    ensures var (err, r) := RemoveEach(fs, paths);
      r.dirs == fs.dirs && r.files.Keys <= fs.files.Keys
      && (forall p :: p in fs.files && p !in paths ==> p in r.files && r.files[p] == fs.files[p])
      && (err.None? ==> r.files == fs.files - set x | x in paths)
      && ((forall x :: 0 <= x < |paths| ==> paths[x] in fs.files)
          && (forall x, y :: 0 <= x < y < |paths| ==> paths[x] != paths[y])
          ==> err.None?)
  {
    if paths != [] {
      var p := paths[0];
      if p in fs.files {
        var next := fs.(files := fs.files - {p});
        RemoveEachEffect(next, paths[1..]);
        var r := RemoveEach(next, paths[1..]).1;
        if RemoveEach(fs, paths).0.None? {
          assert r.files == next.files - set x | x in paths[1..];
          assert r.files == fs.files - set x | x in paths;
        }
        if (forall x :: 0 <= x < |paths| ==> paths[x] in fs.files)
           && (forall x, y :: 0 <= x < y < |paths| ==> paths[x] != paths[y]) {
          forall x | 0 <= x < |paths[1..]| ensures paths[1..][x] in next.files {
            assert paths[1..][x] == paths[x + 1] != paths[0];
          }
        }
      }
    }
  }

  /** The cleanup deletes nothing but the listed page images and the two work
      directories, and when it completes it has deleted all of them. */
  lemma CleanupDeletesOnlyItsOwn(e: PdfImageEnhancer, fs: FileSystem, paths: seq<Path>)
    ensures var (err, r) := e.Cleanup(fs, paths);
      r.files.Keys <= fs.files.Keys
      && (forall p :: p in fs.files && p !in paths ==> p in r.files && r.files[p] == fs.files[p])
      && fs.dirs - {e.tempDir, e.enhancedDir} <= r.dirs <= fs.dirs
      && (err.None? ==> r.files == fs.files - (set x | x in paths) && r.dirs == fs.dirs - {e.tempDir, e.enhancedDir})
  {
    RemoveEachEffect(fs, paths);
  }

  // ----- Whole runs -----

  /** When no page's `try` block completes, assembly raises `IndexError` on
      the empty image list and the filesystem is left exactly as it was: no
      cleanup runs, so both work directories remain. */
  lemma NoPageSucceeds(e: PdfImageEnhancer, docs: Documents, k: Kernels, fs: FileSystem, input: Path, output: Path, dpi: int, n: nat)
    requires input in fs.files && docs.pageCount(fs.files[input]) == Some(n)
    requires var outs := Outcomes(e, docs, k, fs.files[input], dpi, n);
      forall x :: 0 <= x < |outs| ==> outs[x].Failed?
    ensures e.Run(docs, k, fs, input, output, dpi) == (Some(IndexError), fs)
  {
    NoPageSucceedsLoop(e, docs, k, fs, input, dpi, n);
  }

  lemma {:induction false} NoPageSucceedsLoop(e: PdfImageEnhancer, docs: Documents, k: Kernels, fs: FileSystem, input: Path, dpi: int, m: nat)
    requires input in fs.files
    requires var outs := Outcomes(e, docs, k, fs.files[input], dpi, m);
      forall x :: 0 <= x < |outs| ==> outs[x].Failed?
    ensures e.PagesThrough(docs, k, input, dpi, fs, m) == LoopState([], [], fs)
  {
    if m > 0 {
      var outs := Outcomes(e, docs, k, fs.files[input], dpi, m);
      assert outs[..m - 1] == Outcomes(e, docs, k, fs.files[input], dpi, m - 1);
      NoPageSucceedsLoop(e, docs, k, fs, input, dpi, m - 1);
      assert e.AttemptPage(docs, k, Some(fs.files[input]), dpi, m) == outs[m - 1];
      assert Lookup(fs, input) == Some(fs.files[input]);
    }
  }

  /** A run on an enhancer built by `__init__`, with both work directories
      present and empty, the document outside the enhanced directory, the
      output outside both work directories, every completed page written and
      at least one of them: the run raises nothing, the output holds the
      enhanced images of the completed pages in ascending page order, the page
      images and the two work directories are gone, and nothing else changed. */
  lemma SuccessfulRun(e: PdfImageEnhancer, docs: Documents, k: Kernels, fs: FileSystem, input: Path, output: Path, dpi: int, n: nat)
    requires e == NewEnhancer(e.config)
    requires input in fs.files && !Under(input, e.enhancedDir) && docs.pageCount(fs.files[input]) == Some(n)
    requires e.tempDir in fs.dirs && IsEmptyDir(fs, e.tempDir)
    requires e.enhancedDir in fs.dirs && IsEmptyDir(fs, e.enhancedDir)
    requires !Under(output, e.tempDir) && !Under(output, e.enhancedDir)
    requires var outs := Outcomes(e, docs, k, fs.files[input], dpi, n);
      (forall x :: 0 <= x < |outs| ==> !outs[x].Unwritten?)
      && (exists x :: 0 <= x < |outs| && outs[x].Written?)
      && docs.savePdf(output, Images(outs))
    ensures var images := Images(Outcomes(e, docs, k, fs.files[input], dpi, n));
      e.Run(docs, k, fs, input, output, dpi) ==
      (None, FileSystem(fs.files[output := Pdf(images)], fs.dirs - {e.tempDir, e.enhancedDir}))
  {
    var outs := Outcomes(e, docs, k, fs.files[input], dpi, n);
    WorkDirLayout(e.config);
    LoopWithFixedDocument(e, docs, k, input, dpi, fs, n);
    ArtifactsNaming(e);
    FinishSucceeds(e, docs, Artifacts(e), fs, outs, output);
    var s := LoopOf(Artifacts(e), fs, outs);
    assert e.Run(docs, k, fs, input, output, dpi) == e.Finish(docs, s.fs, s.paths, output);
  }

  /** The part of `SuccessfulRun` after the page loop. */
  lemma FinishSucceeds(e: PdfImageEnhancer, docs: Documents, art: nat -> Path, fs: FileSystem, outs: seq<Attempt>, output: Path)
    requires Naming(art, e.enhancedDir) && e.tempDir != e.enhancedDir && !Under(e.tempDir, e.enhancedDir)
    requires forall p :: !(Under(p, e.tempDir) && Under(p, e.enhancedDir))
    requires e.tempDir in fs.dirs && IsEmptyDir(fs, e.tempDir)
    requires e.enhancedDir in fs.dirs && IsEmptyDir(fs, e.enhancedDir)
    requires !Under(output, e.tempDir) && !Under(output, e.enhancedDir)
    requires (forall x :: 0 <= x < |outs| ==> !outs[x].Unwritten?)
      && (exists x :: 0 <= x < |outs| && outs[x].Written?)
      && docs.savePdf(output, Images(outs))
    ensures var s := LoopOf(art, fs, outs);
      e.Finish(docs, s.fs, s.paths, output) ==
      (None, FileSystem(fs.files[output := Pdf(Images(outs))], fs.dirs - {e.tempDir, e.enhancedDir}))
  {
    var images := Images(outs);
    var s := LoopOf(art, fs, outs);
    LoopImagesOpen(art, e.enhancedDir, fs, outs);
    ImagesNonEmpty(outs);
    var saved := Write(s.fs, output, Pdf(images));
    assert e.Finish(docs, s.fs, s.paths, output) == e.Cleanup(saved, s.paths);
    RemovalRestores(art, e.enhancedDir, fs, outs, output, images);
    CleanupAfterRemoval(e, fs, saved, s.paths, output, Pdf(images));
  }

  /** A written page contributes an image to the document. */
  lemma ImagesNonEmpty(outs: seq<Attempt>)
    requires exists x :: 0 <= x < |outs| && outs[x].Written?
    ensures |Images(outs)| > 0
  {
    ListedImages(outs);
    ListedMembers(outs);
    var x :| 0 <= x < |outs| && outs[x].Written?;
    assert x + 1 in Listed(outs);
  }

  /** Once the page images are removed, both work directories are empty again
      and `os.rmdir` removes them. */
  lemma CleanupAfterRemoval(e: PdfImageEnhancer, fs: FileSystem, saved: FileSystem, paths: seq<Path>, output: Path, b: Blob)
    requires e.tempDir != e.enhancedDir && !Under(e.tempDir, e.enhancedDir)
    requires e.tempDir in fs.dirs && IsEmptyDir(fs, e.tempDir)
    requires e.enhancedDir in fs.dirs && IsEmptyDir(fs, e.enhancedDir)
    requires !Under(output, e.tempDir) && !Under(output, e.enhancedDir)
    requires RemoveEach(saved, paths) == (None, FileSystem(fs.files[output := b], fs.dirs))
    ensures e.Cleanup(saved, paths) == (None, FileSystem(fs.files[output := b], fs.dirs - {e.tempDir, e.enhancedDir}))
  {
    var removed := FileSystem(fs.files[output := b], fs.dirs);
    assert IsEmptyDir(removed, e.tempDir);
    var noTemp := removed.(dirs := fs.dirs - {e.tempDir});
    assert Rmdir(removed, e.tempDir) == Ok(noTemp);
    assert IsEmptyDir(noTemp, e.enhancedDir);
    assert e.enhancedDir in noTemp.dirs;
    assert noTemp.dirs - {e.enhancedDir} == fs.dirs - {e.tempDir, e.enhancedDir};
    assert Rmdir(noTemp, e.enhancedDir) == Ok(FileSystem(fs.files[output := b], fs.dirs - {e.tempDir, e.enhancedDir}));
  }

  /** Under the conditions of `SuccessfulRun`, removing the listed page images
      after the save brings the files back to the original ones plus the output. */
  lemma RemovalRestores(art: nat -> Path, dir: Path, fs: FileSystem, outs: seq<Attempt>, output: Path, images: seq<Grid>)
    requires Naming(art, dir)
    requires IsEmptyDir(fs, dir) && !Under(output, dir)
    requires forall x :: 0 <= x < |outs| ==> !outs[x].Unwritten?
    ensures var s := LoopOf(art, fs, outs);
      RemoveEach(Write(s.fs, output, Pdf(images)), s.paths) == (None, FileSystem(fs.files[output := Pdf(images)], fs.dirs))
  {
    var s := LoopOf(art, fs, outs);
    var w := WrittenImages(art, outs);
    LoopOfFiles(art, fs, outs);
    LoopPathsDistinct(art, dir, fs, outs);
    var saved := Write(s.fs, output, Pdf(images));
    forall x | 0 <= x < |s.paths| ensures s.paths[x] in saved.files {
      ListedPathHolds(art, dir, fs, outs, x);
    }
    RemoveEachEffect(saved, s.paths);
    var removed := RemoveEach(saved, s.paths).1;
    var expected := fs.files[output := Pdf(images)];
    forall p | p in removed.files || p in expected ensures p in removed.files && p in expected && removed.files[p] == expected[p] {
      if p !in s.paths && p != output && p in w {
        WrittenIsListed(art, dir, fs, outs, p);
      }
    }
    assert removed.files == expected;
  }

  /** Every path holding a written page image was appended to the list. */
  lemma WrittenIsListed(art: nat -> Path, dir: Path, fs: FileSystem, outs: seq<Attempt>, p: Path)
    requires Naming(art, dir)
    requires p in WrittenImages(art, outs)
    ensures p in LoopOf(art, fs, outs).paths
  {
    var s := LoopOf(art, fs, outs);
    LoopOfLists(art, fs, outs);
    WrittenImagesExactly(art, dir, outs);
    ListedExactly(outs);
    var j :| 1 <= j <= |outs| && outs[j - 1].Written? && p == art(j);
    assert j in Listed(outs);
    var x :| 0 <= x < |s.pages| && s.pages[x] == j;
    assert s.paths[x] == p;
  }
}

/** The part of the filesystem the service touches, as a value: regular files
    with their contents, and directories. `Result` failures are the `OSError`s
    the corresponding `os` calls raise. */
module Files {
  import opened Common
  import opened Paths
  import opened Imaging

  /** What a file holds: uploaded or produced bytes, a page image written by
      `cv2.imwrite`, or a multi-page document saved by PIL. */
  datatype Blob = Bytes(data: seq<int>) | Png(pixels: Grid) | Pdf(pages: seq<Grid>)

  datatype FileSystem = FileSystem(files: map<Path, Blob>, dirs: set<Path>)

  /** `os.path.exists`: true for files and for directories. */
  predicate Exists(fs: FileSystem, p: Path) {
    p in fs.files || p in fs.dirs
  }

  /** Writing (or overwriting) a file. */
  function Write(fs: FileSystem, p: Path, b: Blob): FileSystem {
    fs.(files := fs.files[p := b])
  }

  /** `os.remove(p)`: fails unless `p` is a file. */
  function Remove(fs: FileSystem, p: Path): (r: Result<FileSystem>)
    ensures r.Ok? <==> p in fs.files
    ensures r.Raised? ==> r.fault == RemoveError(p)
    ensures r.Ok? ==> r.value.files == fs.files - {p} && r.value.dirs == fs.dirs
  {
    if p in fs.files then Ok(fs.(files := fs.files - {p})) else Raised(RemoveError(p))
  }

  /** Nothing, file or directory, lies inside directory `d`. */
  predicate IsEmptyDir(fs: FileSystem, d: Path) {
    (forall p | p in fs.files :: !Under(p, d)) && (forall q | q in fs.dirs :: !Under(q, d))
  }

  /** `os.rmdir(d)`: fails unless `d` is an empty directory. */
  function Rmdir(fs: FileSystem, d: Path): (r: Result<FileSystem>)
    ensures r.Ok? <==> d in fs.dirs && IsEmptyDir(fs, d)
    ensures r.Raised? ==> r.fault == RmdirError(d)
    ensures r.Ok? ==> r.value.files == fs.files && r.value.dirs == fs.dirs - {d}
  {
    if d in fs.dirs && IsEmptyDir(fs, d) then Ok(fs.(dirs := fs.dirs - {d})) else Raised(RmdirError(d))
  }

  /** `os.makedirs(d, exist_ok=True)` for a directory whose parent exists. */
  function MakeDirs(fs: FileSystem, d: Path): FileSystem {
    fs.(dirs := fs.dirs + {d})
  }

  /** `Image.open(p)` of a page image: fails unless `p` is a file holding one. */
  function OpenImage(fs: FileSystem, p: Path): (r: Result<Grid>)
    ensures r.Ok? <==> p in fs.files && fs.files[p].Png?
    ensures r.Ok? ==> r.value == fs.files[p].pixels
    ensures r.Raised? ==> r.fault == OpenError(p)
  {
    if p in fs.files && fs.files[p].Png? then Ok(fs.files[p].pixels) else Raised(OpenError(p))
  }
}

/** POSIX path helpers with the behaviour of Python's `os.path.join` (two
    arguments) and `os.path.splitext`. */
module Paths {
  import opened Text

  type Path = string

  /** `os.path.join(a, b)`: an absolute `b` replaces `a`; otherwise one `/` is
      put between them unless `a` is empty or already ends with `/`. */
  function Join(a: Path, b: Path): Path {
    if StartsWith(b, "/") then b
    else if a == [] || EndsWith(a, "/") then a + b
    else a + "/" + b
  }

  /** What `Join(a, b)` puts between `a` and a relative `b`. */
  function Glue(a: Path): string {
    if a == [] || EndsWith(a, "/") then "" else "/"
  }

  /** Directory `d` (not ending in `/`) strictly contains path `p`. */
  predicate Under(p: Path, d: Path) {
    StartsWith(p, d + "/")
  }

  lemma JoinRelative(a: Path, b: Path)
    requires !StartsWith(b, "/")
    ensures Join(a, b) == a + Glue(a) + b
  {
  }

  /** Joining a relative name onto a directory lands strictly inside it, and the
      result ends with that name. */
  lemma JoinUnder(d: Path, b: Path)
    requires d != [] && !EndsWith(d, "/") && !StartsWith(b, "/")
    ensures Under(Join(d, b), d) && EndsWith(Join(d, b), b)
  {
    assert Join(d, b) == (d + "/") + b;
  }

  /** A relative name that does not end in `/` gives a joined path that is not
      empty and does not end in `/` either. */
  lemma JoinShape(a: Path, b: Path)
    requires b != [] && !StartsWith(b, "/") && !EndsWith(b, "/")
    ensures Join(a, b) != [] && !EndsWith(Join(a, b), "/")
  {
    var r := Join(a, b);
    assert r == a + Glue(a) + b;
    assert r[|r| - 1] == b[|b| - 1];
    assert b[|b| - 1..] == [b[|b| - 1]];
    assert r[|r| - 1..] == [r[|r| - 1]];
  }

  /** Joining different relative names onto one directory gives different paths. */
  lemma JoinInjective(a: Path, b1: Path, b2: Path)
    requires !StartsWith(b1, "/") && !StartsWith(b2, "/")
    requires Join(a, b1) == Join(a, b2)
    ensures b1 == b2
  {
    var g := a + Glue(a);
    assert Join(a, b1) == g + b1 && Join(a, b2) == g + b2;
    assert b1 == (g + b1)[|g|..];
    assert b2 == (g + b2)[|g|..];
  }

  /** `os.path.splitext(p)`: the extension starts at the last `.` of the last
      path component, provided that component has a character other than `.`
      before it (so leading dots do not start an extension); otherwise the
      extension is empty. */
  function Splitext(p: Path): (string, string) {
    var sepIndex := LastIndexOf(p, '/');
    var dotIndex := LastIndexOf(p, '.');
    if dotIndex > sepIndex && exists k | sepIndex < k < dotIndex :: p[k] != '.'
    then (p[..dotIndex], p[dotIndex..])
    else (p, "")
  }

  /** The two parts of `Splitext` put back together give the path. */
  lemma SplitextConcat(p: Path)
    ensures Splitext(p).0 + Splitext(p).1 == p
  {
    var sepIndex := LastIndexOf(p, '/');
    var dotIndex := LastIndexOf(p, '.');
    if dotIndex > sepIndex && exists k | sepIndex < k < dotIndex :: p[k] != '.' {
      assert p[..dotIndex] + p[dotIndex..] == p;
    }
  }

  /** A non-empty extension is one `.` followed by characters that are neither
      `.` nor `/`, and the root in front of it is not empty and does not end
      in `/`. */
  lemma SplitextExtension(p: Path)
    ensures var (root, ext) := Splitext(p);
      ext == [] ||
      (ext[0] == '.' && !Occurs('.', ext[1..]) && !Occurs('/', ext)
       && root != [] && root[|root| - 1] != '/')
  {
    var sepIndex := LastIndexOf(p, '/');
    var dotIndex := LastIndexOf(p, '.');
    if dotIndex > sepIndex && exists k | sepIndex < k < dotIndex :: p[k] != '.' {
      var ext := p[dotIndex..];
      assert ext[0] == '.';
      forall j | 0 <= j < |ext[1..]| ensures ext[1..][j] != '.' {
        assert ext[1..][j] == p[dotIndex + 1 + j];
      }
      forall j | 0 <= j < |ext| ensures ext[j] != '/' {
        assert ext[j] == p[dotIndex + j];
      }
      assert p[dotIndex - 1] != '/';
    }
  }
}

/** The parts of Rust's `std::path::Path` the source uses, on `/`-separated
    string paths: `join`, `parent`, `is_relative` and `extension`. */
module Paths {
  import opened Wrappers
  import opened Text

  type Path = string

  predicate IsAbsolute(p: Path) {
    |p| > 0 && p[0] == '/'
  }

  /** `Path::join`: an absolute `p` replaces `base`; otherwise `p` is
      appended after a separator. */
  function Join(base: Path, p: Path): (r: Path)
    ensures IsAbsolute(p) ==> r == p
    ensures !IsAbsolute(p) ==> |r| >= |p| && r[|r| - |p|..] == p
    ensures !IsAbsolute(p) ==> |r| >= |base| && r[..|base|] == base
  {
    if IsAbsolute(p) then p
    else if base == [] || base[|base| - 1] == '/' then base + p
    else base + "/" + p
  }

  /** Joining two relative paths of the same kind to one base keeps them
      apart. */
  lemma JoinInjective(base: Path, a: Path, b: Path)
    requires IsAbsolute(a) == IsAbsolute(b)
    requires Join(base, a) == Join(base, b)
    ensures a == b
  {
    if !IsAbsolute(a) {
      var prefix := if base == [] || base[|base| - 1] == '/' then base else base + "/";
      assert Join(base, a) == prefix + a && Join(base, b) == prefix + b;
      assert (prefix + a)[|prefix|..] == a && (prefix + b)[|prefix|..] == b;
    }
  }

  function StripTrailingSlashes(p: Path): (r: Path)
    ensures |r| <= |p| && r == p[..|r|]
    ensures |r| > 1 ==> r[|r| - 1] != '/'
  {
    if |p| > 1 && p[|p| - 1] == '/' then StripTrailingSlashes(p[..|p| - 1]) else p
  }

  /** A path without trailing separators (the root itself excepted). */
  predicate Canonical(p: Path) {
    StripTrailingSlashes(p) == p
  }

  /** `Path::parent`: the path without its last component; `None` for the
      empty path and the root. */
  function Parent(p: Path): (r: Option<Path>)
    ensures r.Some? ==> Canonical(r.value)
  {
    var q := StripTrailingSlashes(p);
    if q == [] || q == "/" then None
    else match LastIndexOf(q, '/')
      case None => Some("")
      case Some(i) => Some(StripTrailingSlashes(q[..i + 1]))
  }

  /** A file name of one ordinary component. */
  predicate IsFileName(name: string) {
    name != [] && '/' !in name && name != "." && name != ".."
  }

  lemma CanonicalEndingInSlash(dir: Path)
    requires Canonical(dir) && dir != [] && dir[|dir| - 1] == '/'
    ensures dir == "/"
  {
  }

  /** The parent of a file joined to a folder is that folder. */
  lemma ParentOfJoin(dir: Path, file: string)
    requires Canonical(dir) && IsFileName(file)
    ensures Parent(Join(dir, file)) == Some(dir)
  {
    if dir == [] {
      assert Join(dir, file) == file;
      NoTrailingSlash(file);
    } else if dir[|dir| - 1] == '/' {
      CanonicalEndingInSlash(dir);
      ParentOfRootJoin(file);
    } else {
      ParentOfDirJoin(dir, file);
    }
  }

  lemma ParentOfRootJoin(file: string)
    requires IsFileName(file)
    ensures Parent(Join("/", file)) == Some("/")
  {
    var p := Join("/", file);
    assert p == [] + ['/'] + file;
    NoTrailingSlash(p);
    LastIndexOfAfter([], '/', file);
    assert p[..1] == "/";
    assert StripTrailingSlashes("/") == "/";
  }

  lemma ParentOfDirJoin(dir: Path, file: string)
    requires Canonical(dir) && dir != [] && dir[|dir| - 1] != '/' && IsFileName(file)
    ensures Parent(Join(dir, file)) == Some(dir)
  {
    var p := Join(dir, file);
    var d := dir + "/";
    assert p == dir + ['/'] + file;
    NoTrailingSlash(p);
    LastIndexOfAfter(dir, '/', file);
    assert p[..|dir| + 1] == d;
    if |d| > 1 {
      assert d[..|d| - 1] == dir;
      OneTrailingSlash(d);
    }
  }

  lemma NoTrailingSlash(p: Path)
    requires p != [] && p[|p| - 1] != '/'
    ensures StripTrailingSlashes(p) == p
  {
  }

  lemma OneTrailingSlash(p: Path)
    requires |p| > 1 && p[|p| - 1] == '/'
    ensures StripTrailingSlashes(p) == StripTrailingSlashes(p[..|p| - 1])
  {
  }

  /** `Path::extension` of a file name: the text after the last `.`, unless
      there is no dot, the dot is the first character, or the name is `..`. */
  function Extension(name: string): (r: Option<string>)
    ensures r.Some? ==>
      ('.' !in r.value && |r.value| + 1 < |name| && name == name[..|name| - |r.value| - 1] + "." + r.value)
    ensures r.None? ==> name == ".." || '.' !in name || (name[0] == '.' && '.' !in name[1..])
  {
    if name == ".." then None
    else match LastIndexOf(name, '.')
      case None => None
      case Some(i) =>
        if i == 0 then None
        else
          assert name == name[..i] + "." + name[i + 1..];
          Some(name[i + 1..])
  }

  /** A non-empty stem followed by `.pak` has extension `pak`. */
  lemma PakExtension(stem: string)
    requires stem != []
    ensures Extension(stem + ".pak") == Some("pak")
  {
    var name := stem + ".pak";
    assert name == stem + ['.'] + "pak";
    LastIndexOfAfter(stem, '.', "pak");
    assert name[|stem| + 1..] == "pak";
  }
}

/**
 * The parts of `std::path::Path` the icon search relies on, for Unix paths
 * held as strings: `file_name`, and `file_stem` / `extension`, which split
 * a file name at its last dot.
 */
module Paths {
  import opened Wrappers
  import opened Common

  /** `p` without the trailing `/` separators and trailing `.` components
      that `Path::components` does not report. */
  function TrimEnd(p: Path): Path
    decreases |p|
  {
    if |p| > 0 && p[|p| - 1] == '/' then TrimEnd(p[..|p| - 1])
    else if p == "." then ""
    else if |p| >= 2 && p[|p| - 2..] == "/." then TrimEnd(p[..|p| - 2])
    else p
  }

  /** The text after the last `/` of `q`. */
  function AfterLastSlash(q: string): string
  {
    if q == [] then []
    else if q[|q| - 1] == '/' then []
    else AfterLastSlash(q[..|q| - 1]) + [q[|q| - 1]]
  }

  /** `Path::file_name`: the last normal component, or `None` when the path
      is empty, a root, `.`, or ends in `..`. */
  function FileName(p: Path): Option<string>
  {
    var f := AfterLastSlash(TrimEnd(p));
    if f == "" || f == ".." then None else Some(f)
  }

  /** Index of the last `.` of `f`. */
  function LastDot(f: string): Option<nat>
  {
    if f == [] then None
    else if f[|f| - 1] == '.' then Some(|f| - 1)
    else LastDot(f[..|f| - 1])
  }

  /** A file name split into stem and extension, as `file_stem` and
      `extension` see it: at the last dot, unless there is none or the only
      dot that could split it is the leading one of a hidden file. */
  function SplitExtension(f: string): (string, Option<string>)
  {
    match LastDot(f)
    case None => (f, None)
    case Some(i) =>
      if i == 0 || i >= |f| then (f, None)
      else (f[..i], Some(f[i + 1..]))
  }

  lemma {:induction false} AfterLastSlashMeaning(q: string)
    ensures '/' !in AfterLastSlash(q)
    ensures |AfterLastSlash(q)| <= |q| && q[|q| - |AfterLastSlash(q)|..] == AfterLastSlash(q)
  {
    if q != [] && q[|q| - 1] != '/' {
      AfterLastSlashMeaning(q[..|q| - 1]);
    }
  }

  /** A file name is a non-empty, slash-free component other than `..`. */
  lemma FileNameShape(p: Path)
    ensures FileName(p).Some? ==>
              FileName(p).value != "" && FileName(p).value != ".." && '/' !in FileName(p).value
  {
    AfterLastSlashMeaning(TrimEnd(p));
  }

  lemma {:induction false} LastDotMeaning(f: string)
    ensures LastDot(f).None? <==> '.' !in f
    ensures LastDot(f).Some? ==>
              LastDot(f).value < |f| && f[LastDot(f).value] == '.' && '.' !in f[LastDot(f).value + 1..]
  {
    if f != [] && f[|f| - 1] != '.' {
      var init := f[..|f| - 1];
      LastDotMeaning(init);
      assert f == init + [f[|f| - 1]];
      if LastDot(init).Some? {
        var i := LastDot(init).value;
        assert f[i + 1..] == init[i + 1..] + [f[|f| - 1]];
      }
    }
  }

  /** The stem and extension put back together give the file name, and an
      extension never holds a dot. */
  lemma SplitExtensionMeaning(f: string)
    ensures SplitExtension(f).1.None? ==> SplitExtension(f).0 == f
    ensures SplitExtension(f).1.Some? ==>
              f == SplitExtension(f).0 + "." + SplitExtension(f).1.value &&
              SplitExtension(f).0 != "" && '.' !in SplitExtension(f).1.value
  {
    LastDotMeaning(f);
    if LastDot(f).Some? && LastDot(f).value != 0 {
      var i := LastDot(f).value;
      assert f == f[..i] + "." + f[i + 1..];
    }
  }

  /** A walked entry is an icon for `name` when its stem is `name` and its
      extension is `png` or `svg`. */
  predicate IsIconFor(p: Path, name: string)
  {
    match FileName(p)
    case None => false
    case Some(f) =>
      var (stem, ext) := SplitExtension(f);
      stem == name && (ext == Some("png") || ext == Some("svg"))
  }

  lemma {:induction false} LastDotAfter(a: string, b: string)
    requires '.' !in b
    ensures LastDot(a + "." + b) == Some(|a|)
    decreases |b|
  {
    var f := a + "." + b;
    if b != [] {
      assert f[..|f| - 1] == a + "." + b[..|b| - 1];
      LastDotAfter(a, b[..|b| - 1]);
    }
  }

  /** Splitting undoes joining a non-empty stem and a dot-free extension. */
  lemma SplitExtensionJoin(stem: string, ext: string)
    requires stem != "" && '.' !in ext
    ensures SplitExtension(stem + "." + ext) == (stem, Some(ext))
  {
    var f := stem + "." + ext;
    LastDotAfter(stem, ext);
    assert f[..|stem|] == stem;
    assert f[|stem| + 1..] == ext;
  }

  /** The icon test in terms of whole file names: the file is called
      `name.png` or `name.svg`, with a non-empty `name`. */
  lemma IconForIff(p: Path, name: string)
    ensures IsIconFor(p, name) <==>
            name != "" && (FileName(p) == Some(name + ".png") || FileName(p) == Some(name + ".svg"))
  {
    assert name + "." + "png" == name + ".png";
    assert name + "." + "svg" == name + ".svg";
    if FileName(p).Some? {
      var f := FileName(p).value;
      if IsIconFor(p, name) {
        SplitExtensionMeaning(f);
        var (stem, ext) := SplitExtension(f);
        assert f == name + "." + ext.value;
      }
      if name != "" && f == name + ".png" {
        SplitExtensionJoin(name, "png");
      }
      if name != "" && f == name + ".svg" {
        SplitExtensionJoin(name, "svg");
      }
    }
  }

  lemma {:induction false} AfterLastSlashJoin(q: string, f: string)
    requires '/' !in f
    ensures AfterLastSlash(q + "/" + f) == f
    decreases |f|
  {
    var p := q + "/" + f;
    if f != [] {
      assert p[..|p| - 1] == q + "/" + f[..|f| - 1];
      AfterLastSlashJoin(q, f[..|f| - 1]);
    }
  }

  /** Joining a plain file name onto any directory gives back that file
      name. */
  lemma FileNameJoin(dir: Path, f: string)
    requires f != "" && f != "." && f != ".." && '/' !in f
    ensures FileName(dir + "/" + f) == Some(f)
  {
    var p := dir + "/" + f;
    assert p[|p| - 1] == f[|f| - 1];
    if |f| == 1 {
      assert p[|p| - 2..] == "/" + f;
    } else {
      assert p[|p| - 2..] == f[|f| - 2..];
      assert f[|f| - 2] in f;
    }
    assert TrimEnd(p) == p;
    AfterLastSlashJoin(dir, f);
  }
}

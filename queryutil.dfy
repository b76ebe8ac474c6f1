/** What download_jpl_de decides before it touches the network: the file
    name, the output path, whether to download, and from which URL. The
    existence of the output file is a predicate given by the caller. */
module QueryUtil {
  import opened Wrappers
  import opened Strings
  import opened PurePath

  /** The extension of a binary SPK ephemeris file. */
  const Extension: string := ".bsp"

  /** The JPL directory that holds the planetary ephemeris files. */
  const PlanetsUrl: string := "https://ssd.jpl.nasa.gov/ftp/eph/planets/bsp/"

  /** The ephemeris name with `.bsp` appended unless it already ends with it. */
  function NormaliseName(dename: string): (r: string)
    ensures EndsWith(r, Extension)
    ensures IsPrefix(dename, r)
    ensures |r| == |dename| || r == dename + Extension
  {
    if EndsWith(dename, Extension) then dename
    else
      var r := dename + Extension;
      assert r[|r| - 4..] == Extension && r[..|dename|] == dename;
      r
  }

  /** A name that already ends in `.bsp` is left alone, and only such a name. */
  lemma NormaliseKeeps(dename: string)
    ensures NormaliseName(dename) == dename <==> EndsWith(dename, Extension)
  {
  }

  /** Normalising twice is normalising once. */
  lemma NormaliseIdempotent(dename: string)
    ensures NormaliseName(NormaliseName(dename)) == NormaliseName(dename)
  {
  }

  /** The package's kernels directory: the parent of the module file, then `kernels`. */
  function KernelsDir(moduleFile: string): (r: PosixPath)
    ensures WellFormed(r)
    ensures var pkg := Parent(Parse(moduleFile)); r == PosixPath(pkg.root, pkg.parts + ["kernels"])
  {
    assert ValidPart("kernels");
    JoinName(Parent(Parse(moduleFile)), "kernels");
    JoinPath(Parent(Parse(moduleFile)), "kernels")
  }

  /** The path written to: the given output, or the normalised name in the kernels directory. */
  function ResolveOutput(dename: string, output: Option<string>, moduleFile: string): (r: PosixPath)
    ensures WellFormed(r)
    ensures output.Some? ==> r == Parse(output.value)
  {
    match output
      case None => JoinPath(KernelsDir(moduleFile), NormaliseName(dename))
      case Some(o) => Parse(o)
  }

  /** Where the file is fetched from: the JPL planets directory and the normalised name. */
  function DownloadUrl(dename: string): (url: string)
    ensures IsPrefix(PlanetsUrl, url) && EndsWith(url, Extension)
    ensures url[|PlanetsUrl|..] == NormaliseName(dename)
  {
    var name := NormaliseName(dename);
    var url := PlanetsUrl + name;
    assert url[|url| - 4..] == name[|name| - 4..];
    assert url[..|PlanetsUrl|] == PlanetsUrl;
    url
  }

  /** What download_jpl_de does: return `output` at once, or fetch `download` into it first. */
  datatype Plan = Plan(output: PosixPath, download: Option<string>)

  /** The decisions of download_jpl_de for the given arguments and file system. */
  function PlanDownload(dename: string, output: Option<string>, overwrite: bool,
                        moduleFile: string, pathExists: PosixPath -> bool): (r: Plan)
    ensures r.output == ResolveOutput(dename, output, moduleFile)
    ensures r.download.None? <==> pathExists(r.output) && !overwrite
    ensures r.download.Some? ==> r.download.value == DownloadUrl(dename)
  {
    var path := ResolveOutput(dename, output, moduleFile);
    if pathExists(path) && !overwrite then Plan(path, None)
    else Plan(path, Some(DownloadUrl(dename)))
  }

  /** Without an output, and for a plain file name, the file goes into `<package>/kernels/`. */
  lemma DefaultOutputInKernels(dename: string, moduleFile: string)
    requires ValidPart(NormaliseName(dename))
    ensures var pkg := Parent(Parse(moduleFile));
      ResolveOutput(dename, None, moduleFile) == PosixPath(pkg.root, pkg.parts + ["kernels", NormaliseName(dename)])
  {
    var pkg := Parent(Parse(moduleFile));
    JoinName(KernelsDir(moduleFile), NormaliseName(dename));
    assert pkg.parts + ["kernels"] + [NormaliseName(dename)] == pkg.parts + ["kernels", NormaliseName(dename)];
  }

  /** The text of a path two parts deeper: the old text, then each part after a slash. */
  lemma TwoPartsText(pkg: PosixPath, a: string, b: string)
    requires pkg.parts != []
    ensures ToString(PosixPath(pkg.root, pkg.parts + [a, b])) == ToString(pkg) + "/" + a + "/" + b
  {
    var k := PosixPath(pkg.root, pkg.parts + [a]);
    ToStringSnoc(pkg, a);
    ToStringSnoc(k, b);
    assert k.parts + [b] == pkg.parts + [a, b];
  }

  /** The text of a path two parts deeper, `kernels` then a name. */
  lemma KernelsText(pkg: PosixPath, name: string)
    requires WellFormed(pkg) && pkg.parts != []
    ensures ToString(PosixPath(pkg.root, pkg.parts + ["kernels", name])) == ToString(pkg) + "/kernels/" + name
  {
    TwoPartsText(pkg, "kernels", name);
    KernelsBetweenSlashes(ToString(pkg), name);
  }

  /** "/" + "kernels" + "/" is "/kernels/", with any text around it. */
  lemma KernelsBetweenSlashes(before: string, after: string)
    ensures before + "/" + "kernels" + "/" + after == before + "/kernels/" + after
  {
    assert "/" + "kernels" + "/" == "/kernels/";
  }

  /** The same as text: the package directory, `/kernels/`, and the normalised name. */
  lemma DefaultOutputText(dename: string, moduleFile: string)
    requires ValidPart(NormaliseName(dename))
    requires Parent(Parse(moduleFile)).parts != []
    ensures ToString(ResolveOutput(dename, None, moduleFile))
         == ToString(Parent(Parse(moduleFile))) + "/kernels/" + NormaliseName(dename)
  {
    DefaultOutputInKernels(dename, moduleFile);
    KernelsText(Parent(Parse(moduleFile)), NormaliseName(dename));
  }

  /** A name that is an absolute path, with no output given, is used as the path itself. */
  lemma AbsoluteNameOverridesKernelsDir(dename: string, moduleFile: string)
    requires |dename| > 0 && dename[0] == '/'
    ensures ResolveOutput(dename, None, moduleFile) == Parse(NormaliseName(dename))
  {
    JoinAbsolute(KernelsDir(moduleFile), NormaliseName(dename));
  }

  /** With no output, a name that is not absolute is taken relative to the kernels directory:
      its parts, however many, follow `kernels`. */
  lemma RelativeNameUnderKernels(dename: string, moduleFile: string)
    requires |dename| == 0 || dename[0] != '/'
    ensures var pkg := Parent(Parse(moduleFile));
      ResolveOutput(dename, None, moduleFile) == PosixPath(pkg.root, pkg.parts + ["kernels"] + Parse(NormaliseName(dename)).parts)
  {
    var name := NormaliseName(dename);
    assert |dename| > 0 ==> name[0] == dename[0] by {
      if |dename| > 0 {
        assert name[..|dename|] == dename;
      }
    }
    assert name[0] != '/';
    assert SplitRoot(name).0 == "";
  }

  /** A name that parses to two parts lands two levels below the kernels directory. */
  lemma TwoPartName(dename: string, moduleFile: string, a: string, b: string)
    requires |dename| == 0 || dename[0] != '/'
    requires Parse(NormaliseName(dename)) == PosixPath("", [a, b])
    ensures var pkg := Parent(Parse(moduleFile));
      ResolveOutput(dename, None, moduleFile) == PosixPath(pkg.root, pkg.parts + ["kernels", a, b])
  {
    RelativeNameUnderKernels(dename, moduleFile);
    AppendKernels(Parent(Parse(moduleFile)).parts, [a, b]);
  }

  /** Regrouping the parts after `kernels`. */
  lemma AppendKernels(xs: seq<string>, ys: seq<string>)
    requires |ys| == 2
    ensures xs + ["kernels"] + ys == xs + ["kernels", ys[0], ys[1]]
  {
  }

  /** The name "sub/de440s" gets the suffix. */
  lemma SubdirectoryNameSuffix()
    ensures NormaliseName("sub/de440s") == "sub/de440s.bsp"
  {
    assert "sub/de440s"[6..] != Extension;
  }

  /** The name "sub/de440s.bsp" parses to two parts. */
  lemma SubdirectoryNameParts()
    ensures Parse("sub/de440s.bsp") == PosixPath("", ["sub", "de440s.bsp"])
  {
    assert "sub" + "/" + "de440s.bsp" == "sub/de440s.bsp";
    assert ValidPart("sub") && ValidPart("de440s.bsp");
    ParseTwoNames("sub", "de440s.bsp");
  }

  /** A name with a directory in it, "sub/de440s", lands in `<package>/kernels/sub/de440s.bsp`. */
  lemma SubdirectoryName(moduleFile: string)
    ensures var pkg := Parent(Parse(moduleFile));
      ResolveOutput("sub/de440s", None, moduleFile) == PosixPath(pkg.root, pkg.parts + ["kernels", "sub", "de440s.bsp"])
  {
    SubdirectoryNameSuffix();
    SubdirectoryNameParts();
    TwoPartName("sub/de440s", moduleFile, "sub", "de440s.bsp");
  }

  /** Two valid names with a slash between parse to a relative path of those two parts. */
  lemma ParseTwoNames(a: string, b: string)
    requires ValidPart(a) && ValidPart(b)
    ensures Parse(a + "/" + b) == PosixPath("", [a, b])
  {
    var p := PosixPath("", [a, b]);
    assert [a, b][1..] == [b];
    assert Join([a, b], "/") == a + "/" + b;
    assert ToString(p) == a + "/" + b;
    ParseToString(p);
  }

  /** The name used by the package's test, and what it normalises to. */
  lemma TestName()
    ensures NormaliseName("de440s") == "de440s.bsp"
    ensures ValidPart("de440s.bsp") && ValidPart("kernels")
    ensures "kernels" + "/" + "de440s.bsp" == "kernels/de440s.bsp"
  {
    assert "de440s"[2..] != Extension;
  }

  /** The default case of the package's test: "de440s" resolves to the parent directory joined with "kernels/de440s.bsp". */
  lemma DefaultNameMatchesTest(moduleFile: string)
    ensures ResolveOutput("de440s", None, moduleFile) == JoinPath(Parent(Parse(moduleFile)), "kernels/de440s.bsp")
  {
    TestName();
    DefaultOutputInKernels("de440s", moduleFile);
    ParseTwoNames("kernels", "de440s.bsp");
  }

  /** Asking for "name" or "name.bsp" plans the same: same path, same decision, same URL. */
  lemma SuffixOptional(dename: string, output: Option<string>, overwrite: bool,
                       moduleFile: string, pathExists: PosixPath -> bool)
    requires !EndsWith(dename, Extension)
    ensures PlanDownload(dename + Extension, output, overwrite, moduleFile, pathExists)
         == PlanDownload(dename, output, overwrite, moduleFile, pathExists)
  {
    var named := dename + Extension;
    assert named[|named| - |Extension|..] == Extension;
    assert NormaliseName(named) == NormaliseName(dename);
  }

  /** Two names give the same URL exactly when they normalise to the same file name. */
  lemma UrlDeterminesName(a: string, b: string)
    ensures DownloadUrl(a) == DownloadUrl(b) <==> NormaliseName(a) == NormaliseName(b)
  {
    if DownloadUrl(a) == DownloadUrl(b) {
      assert DownloadUrl(a)[|PlanetsUrl|..] == DownloadUrl(b)[|PlanetsUrl|..];
    }
  }
}

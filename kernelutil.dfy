/** The text of the NAIF meta-kernel that make_meta writes: a fixed
    `\begintext` comment block, then a `\begindata` block that binds
    PATH_VALUES to the package's kernels directory, PATH_SYMBOLS to the
    symbol KERNELS, and KERNELS_TO_LOAD to the caller's kernel paths, each
    quoted and separated by `',` plus a newline and four spaces. */
module KernelUtil {
  import opened Wrappers
  import opened Strings
  import opened PyFormat

  // The template's lines, in order.
  const BeginText: string := "\n\\begintext\n\n"
  const CommentStart: string := "    This meta file contains the paths"
  const CommentEnd: string := " to needed SPICE kernels.\n"
  const CommentLine: string := CommentStart + CommentEnd
  const BeginData: string := "\n\\begindata\n"
  const PathValuesOpen: string := "      PATH_VALUES     = ( '"
  const PathValuesClose: string := "/kernels/ ' )\n\n"
  const PathSymbolsLine: string := "      PATH_SYMBOLS    = ( 'KERNELS' )\n\n"
  const KernelsOpen: string := "KERNELS_TO_LOAD = (\n    '"

  /** The template text before the package directory. */
  const Head: string := BeginText + CommentLine + BeginData + PathValuesOpen

  /** The template text between the package directory and the list of kernel paths. */
  const Middle: string := PathValuesClose + PathSymbolsLine + KernelsOpen

  /** The template text after the list of kernel paths. */
  const Tail: string := "'\n)\n"

  /** What make_meta puts between two kernel paths. */
  const Separator: string := "',\n    '"

  /** The template as the module builds it: the package directory is spliced in
      as it is, and the list of paths goes where the `{}` field stands. */
  function MetaTemplate(rootDir: string): (r: string)
    ensures IsPrefix(Head + rootDir, r) && EndsWith(r, "{}" + Tail)
    ensures NoBraces(rootDir) ==> NoBraces(r[..|r| - |Tail| - 2]) && NoBraces(r[|r| - |Tail|..])
  {
    var r := Head + rootDir + Middle + "{}" + Tail;
    assert r[..|Head + rootDir|] == Head + rootDir;
    assert r[|r| - |Tail| - 2..] == "{}" + Tail;
    assert r[..|r| - |Tail| - 2] == Head + rootDir + Middle;
    assert r[|r| - |Tail|..] == Tail;
    TemplateTextNoBraces();
    if NoBraces(rootDir) then
      NoBracesConcat(Head, rootDir);
      NoBracesConcat(Head + rootDir, Middle);
      r
    else r
  }

  /** make_meta's contents as written: the template formatted with the joined paths.
      Braces in the package directory are read as format syntax. */
  function MetaContentsAsWritten(paths: seq<string>, rootDir: string): (r: Result<string, FormatError>)
    ensures r.Success? ==> IsPrefix(Head, r.value)
  {
    var rest := rootDir + Middle + "{}" + Tail;
    assert MetaTemplate(rootDir) == Head + rest;
    TemplateTextNoBraces();
    FormatKeepsLiteralPrefix(Head, rest, Join(paths, Separator));
    Format(MetaTemplate(rootDir), Join(paths, Separator))
  }

  /** Everything in front of the list of kernel paths. */
  function MetaPrefix(rootDir: string): string {
    Head + rootDir + Middle
  }

  /** The region between the quotes of KERNELS_TO_LOAD. */
  function ListRegion(paths: seq<string>): string {
    Join(paths, Separator)
  }

  /** The meta-kernel text, with the package directory taken literally. */
  function MetaContents(paths: seq<string>, rootDir: string): (r: string)
    ensures IsPrefix(MetaPrefix(rootDir), r) && EndsWith(r, Tail)
    ensures |r| == |MetaPrefix(rootDir)| + |ListRegion(paths)| + |Tail|
  {
    var r := MetaPrefix(rootDir) + ListRegion(paths) + Tail;
    assert r[..|MetaPrefix(rootDir)|] == MetaPrefix(rootDir);
    assert r[|r| - |Tail|..] == Tail;
    r
  }

  /** The template with the package directory written so that format reproduces it. */
  function MetaTemplateEscaped(rootDir: string): string {
    EscapeBraces(Head + rootDir + Middle) + "{}" + EscapeBraces(Tail)
  }

  /** No part of the template's own text holds a brace. */
  lemma TemplateTextNoBraces()
    ensures NoBraces(Head) && NoBraces(Middle) && NoBraces(Tail)
  {
    assert NoBraces(CommentStart) && NoBraces(CommentEnd);
    NoBracesConcat(CommentStart, CommentEnd);
    NoBracesConcat(BeginText, CommentLine);
    NoBracesConcat(BeginText + CommentLine, BeginData);
    NoBracesConcat(BeginText + CommentLine + BeginData, PathValuesOpen);
    NoBracesConcat(PathValuesClose, PathSymbolsLine);
    NoBracesConcat(PathValuesClose + PathSymbolsLine, KernelsOpen);
  }

  /** With a package directory free of braces, the code as written produces MetaContents. */
  lemma AsWrittenAgrees(paths: seq<string>, rootDir: string)
    requires NoBraces(rootDir)
    ensures MetaContentsAsWritten(paths, rootDir) == Success(MetaContents(paths, rootDir))
  {
    TemplateTextNoBraces();
    NoBracesConcat(Head, rootDir);
    NoBracesConcat(Head + rootDir, Middle);
    assert MetaTemplate(rootDir) == MetaPrefix(rootDir) + "{}" + Tail;
    OneField(MetaPrefix(rootDir), Tail, Join(paths, Separator));
  }

  /** Formatting the escaped template gives MetaContents for every package directory. */
  lemma EscapedTemplateFormats(paths: seq<string>, rootDir: string)
    ensures Format(MetaTemplateEscaped(rootDir), ListRegion(paths)) == Success(MetaContents(paths, rootDir))
  {
    OneFieldEscaped(Head + rootDir + Middle, Tail, ListRegion(paths));
  }

  /** The pieces of the example package directory `/opt/{x}`. */
  lemma ExampleDirPieces()
    ensures "/opt/{x}" == "/opt/" + "{" + "x" + "}"
    ensures NoBraces("/opt/") && NoBraces("x") && !HasFieldSyntax("x") && !AllDigits("x")
  {
    assert !IsDigit("x"[0]);
  }

  /** A package directory holding a field name makes make_meta raise KeyError, whatever the paths. */
  lemma AsWrittenFailsOnBraces(paths: seq<string>)
    ensures MetaContentsAsWritten(paths, "/opt/{x}") == Failure(MissingKey("x"))
  {
    var after := Middle + "{}" + Tail;
    ExampleDirPieces();
    assert MetaTemplate("/opt/{x}") == (Head + "/opt/") + ("{" + "x" + "}" + after);
    TemplateTextNoBraces();
    NoBracesConcat(Head, "/opt/");
    KeywordFieldFails(Head + "/opt/", "x", after, Join(paths, Separator));
  }

  /** The package directory of the doubled-braces example, escaped. */
  lemma EscapeExample()
    ensures EscapeBraces("/opt/{x}") == "/opt/{{x}}"
  {
    assert "/opt/{x}" == "/opt/" + "{" + "x" + "}";
    assert "/opt/{{x}}" == "/opt/" + "{{" + "x" + "}}";
    assert NoBraces("/opt/") && NoBraces("x");
    EscapeAroundName("/opt/", "x");
  }

  /** A package directory holding doubled braces is silently rewritten in PATH_VALUES. */
  lemma AsWrittenRewritesDoubledBraces(paths: seq<string>)
    ensures MetaContentsAsWritten(paths, "/opt/{{x}}") == Success(MetaContents(paths, "/opt/{x}"))
  {
    var d := "/opt/{x}";
    EscapeExample();
    TemplateTextNoBraces();
    EscapeConcat(Head, d);
    EscapeConcat(Head + d, Middle);
    EscapedTemplateFormats(paths, d);
  }

  /** Every kernel path appears in the contents, in full, inside the list region. */
  lemma PathsAppear(paths: seq<string>, rootDir: string, i: nat)
    requires i < |paths|
    ensures ContainsAt(MetaContents(paths, rootDir), paths[i], |MetaPrefix(rootDir)| + JoinOffset(paths, Separator, i))
    ensures Contains(MetaContents(paths, rootDir), paths[i])
  {
    JoinAt(paths, Separator, i);
    ContainsAtShift(MetaPrefix(rootDir), ListRegion(paths), Tail, paths[i], JoinOffset(paths, Separator, i));
  }

  /** Paths appear in the text in the order they were given: path i lies in full, then at least
      a separator's length, then path j. */
  lemma PathsInOrder(paths: seq<string>, rootDir: string, i: nat, j: nat)
    requires i < j < |paths|
    ensures var m, p := MetaContents(paths, rootDir), |MetaPrefix(rootDir)|;
      ContainsAt(m, paths[i], p + JoinOffset(paths, Separator, i))
      && ContainsAt(m, paths[j], p + JoinOffset(paths, Separator, j))
      && p + JoinOffset(paths, Separator, i) + |paths[i]| + |Separator| <= p + JoinOffset(paths, Separator, j)
  {
    JoinOrder(paths, Separator, i, j);
    PathsAppear(paths, rootDir, i);
    PathsAppear(paths, rootDir, j);
  }

  /** Consecutive paths are exactly one separator apart in the contents, and the separator lies between them. */
  lemma PathsAdjacent(paths: seq<string>, rootDir: string, i: nat)
    requires i + 1 < |paths|
    ensures var p := |MetaPrefix(rootDir)|;
      p + JoinOffset(paths, Separator, i + 1) == p + JoinOffset(paths, Separator, i) + |paths[i]| + |Separator|
      && ContainsAt(MetaContents(paths, rootDir), Separator, p + JoinOffset(paths, Separator, i) + |paths[i]|)
  {
    JoinNext(paths, Separator, i);
    ContainsAtShift(MetaPrefix(rootDir), ListRegion(paths), Tail, Separator, JoinOffset(paths, Separator, i) + |paths[i]|);
  }

  /** The text outside the list region does not depend on the paths. */
  lemma TemplateIndependentOfPaths(paths: seq<string>, others: seq<string>, rootDir: string)
    ensures var m, n := MetaContents(paths, rootDir), MetaContents(others, rootDir);
      var p := |MetaPrefix(rootDir)|;
      m[..p] == n[..p] && m[|m| - |Tail|..] == n[|n| - |Tail|..]
  {
  }

  /** What is found in the template text in front of the package directory is found in the contents. */
  lemma InHead(paths: seq<string>, rootDir: string, t: string, i: nat)
    requires ContainsAt(Head, t, i)
    ensures ContainsAt(MetaContents(paths, rootDir), t, i)
  {
    ContainsAtRight(Head, rootDir, t, i);
    ContainsAtRight(Head + rootDir, Middle, t, i);
    ContainsAtRight(MetaPrefix(rootDir), ListRegion(paths), t, i);
    ContainsAtRight(MetaPrefix(rootDir) + ListRegion(paths), Tail, t, i);
  }

  /** What is found in the template text after the package directory is found in the contents. */
  lemma InMiddle(paths: seq<string>, rootDir: string, t: string, i: nat)
    requires ContainsAt(Middle, t, i)
    ensures ContainsAt(MetaContents(paths, rootDir), t, |Head| + |rootDir| + i)
  {
    ContainsAtLeft(Head + rootDir, Middle, t, i);
    ContainsAtRight(MetaPrefix(rootDir), ListRegion(paths), t, |Head| + |rootDir| + i);
    ContainsAtRight(MetaPrefix(rootDir) + ListRegion(paths), Tail, t, |Head| + |rootDir| + i);
  }

  lemma PathValuesInOpen()
    ensures ContainsAt(PathValuesOpen, "PATH_VALUES", 6)
  {
    assert PathValuesOpen == "      " + "PATH_VALUES" + "     = ( '";
    ContainsAtSelf("PATH_VALUES");
    ContainsAtShift("      ", "PATH_VALUES", "     = ( '", "PATH_VALUES", 0);
  }

  /** PATH_VALUES occurs whatever the paths are. */
  lemma PathValuesPresent(paths: seq<string>, rootDir: string)
    ensures Contains(MetaContents(paths, rootDir), "PATH_VALUES")
  {
    var top := BeginText + CommentLine + BeginData;
    PathValuesInOpen();
    ContainsAtLeft(top, PathValuesOpen, "PATH_VALUES", 6);
    InHead(paths, rootDir, "PATH_VALUES", |top| + 6);
  }

  /** What is found in the PATH_SYMBOLS line is found in the contents. */
  lemma InPathSymbolsLine(paths: seq<string>, rootDir: string, t: string, i: nat)
    requires ContainsAt(PathSymbolsLine, t, i)
    ensures Contains(MetaContents(paths, rootDir), t)
  {
    ContainsAtLeft(PathValuesClose, PathSymbolsLine, t, i);
    ContainsAtRight(PathValuesClose + PathSymbolsLine, KernelsOpen, t, |PathValuesClose| + i);
    InMiddle(paths, rootDir, t, |PathValuesClose| + i);
  }

  /** PATH_SYMBOLS occurs whatever the paths are. */
  lemma PathSymbolsPresent(paths: seq<string>, rootDir: string)
    ensures Contains(MetaContents(paths, rootDir), "PATH_SYMBOLS")
  {
    assert PathSymbolsLine == "      " + "PATH_SYMBOLS" + "    = ( 'KERNELS' )\n\n";
    ContainsAtSelf("PATH_SYMBOLS");
    ContainsAtShift("      ", "PATH_SYMBOLS", "    = ( 'KERNELS' )\n\n", "PATH_SYMBOLS", 0);
    InPathSymbolsLine(paths, rootDir, "PATH_SYMBOLS", 6);
  }

  /** The symbol KERNELS occurs whatever the paths are. */
  lemma KernelsSymbolPresent(paths: seq<string>, rootDir: string)
    ensures Contains(MetaContents(paths, rootDir), "KERNELS")
  {
    var before := "      PATH_SYMBOLS    = ( '";
    assert PathSymbolsLine == before + "KERNELS" + "' )\n\n";
    ContainsAtSelf("KERNELS");
    ContainsAtShift(before, "KERNELS", "' )\n\n", "KERNELS", 0);
    InPathSymbolsLine(paths, rootDir, "KERNELS", |before|);
  }

  /** KERNELS_TO_LOAD occurs whatever the paths are. */
  lemma KernelsToLoadPresent(paths: seq<string>, rootDir: string)
    ensures Contains(MetaContents(paths, rootDir), "KERNELS_TO_LOAD")
  {
    assert KernelsOpen == "KERNELS_TO_LOAD" + " = (\n    '";
    ContainsAtSelf("KERNELS_TO_LOAD");
    ContainsAtShift("", "KERNELS_TO_LOAD", " = (\n    '", "KERNELS_TO_LOAD", 0);
    assert "" + "KERNELS_TO_LOAD" + " = (\n    '" == KernelsOpen;
    ContainsAtLeft(PathValuesClose + PathSymbolsLine, KernelsOpen, "KERNELS_TO_LOAD", 0);
    InMiddle(paths, rootDir, "KERNELS_TO_LOAD", |PathValuesClose + PathSymbolsLine|);
  }

  /** The PATH_VALUES entry around any package directory. */
  lemma EntryAroundRoot(rootDir: string)
    ensures ContainsAt(PathValuesOpen + rootDir + PathValuesClose, "PATH_VALUES     = ( '" + rootDir + "/kernels/ ' )", 6)
  {
    assert PathValuesOpen == "      " + "PATH_VALUES     = ( '";
    assert PathValuesClose == "/kernels/ ' )" + "\n\n";
    var s := PathValuesOpen + rootDir + PathValuesClose;
    var e := "PATH_VALUES     = ( '" + rootDir + "/kernels/ ' )";
    assert s == "      " + e + "\n\n";
    ContainsAtSelf(e);
    ContainsAtShift("      ", e, "\n\n", e, 0);
  }

  /** Regrouping the contents around the PATH_VALUES entry. */
  lemma RegroupEntry(top: string, open: string, root: string, close: string, rest: string, list: string, tail: string)
    ensures (top + open) + root + (close + rest) + list + tail == top + (open + root + close) + (rest + list + tail)
  {
  }

  /** PATH_VALUES is bound to the package directory followed by `/kernels/ `, at a fixed place. */
  lemma PathValuesEntry(paths: seq<string>, rootDir: string)
    ensures ContainsAt(MetaContents(paths, rootDir), "PATH_VALUES     = ( '" + rootDir + "/kernels/ ' )", 94)
  {
    var top := BeginText + CommentLine + BeginData;
    var rest := PathSymbolsLine + KernelsOpen;
    assert |top| == 88;
    EntryAroundRoot(rootDir);
    var e := "PATH_VALUES     = ( '" + rootDir + "/kernels/ ' )";
    ContainsAtShift(top, PathValuesOpen + rootDir + PathValuesClose, rest + ListRegion(paths) + Tail, e, 6);
    RegroupEntry(top, PathValuesOpen, rootDir, PathValuesClose, rest, ListRegion(paths), Tail);
  }

  /** With n >= 1 paths and no quote in any of them, the list region holds n - 1 separators,
      and splitting it at the separator gives the paths back. */
  lemma SeparatorsBetweenPaths(paths: seq<string>)
    requires |paths| > 0
    requires forall k :: 0 <= k < |paths| ==> Free(paths[k], '\'')
    ensures Count(ListRegion(paths), Separator) == |paths| - 1
    ensures Split(ListRegion(paths), Separator) == paths
  {
    SplitJoin(paths, Separator);
    SeparatorCount(paths, Separator);
  }

  /** Keeping the separator itself out of the paths is not enough for n - 1 separators:
      two such paths can make the joined text hold two of them. */
  lemma SeparatorInsideJoin()
    ensures var p1, p2 := "'" + ",\n    ", ",\n    " + "'" + "x";
      !Contains(p1, Separator) && !Contains(p2, Separator)
      && Count(ListRegion([p1, p2]), Separator) == 2
  {
    var q, r := "'", ",\n    ";
    var p1, p2 := q + r, r + q + "x";
    assert Separator == q + r + q;
    forall i: nat | i <= |p1| ensures !ContainsAt(p1, Separator, i) { }
    forall i: nat | i <= |p2| ensures ContainsAt(p2, Separator, i) ==> i == 0 && p2[0] == Separator[0] {
      if i + |Separator| <= |p2| {
        assert p2[i..i + |Separator|][0] == p2[i];
      }
    }
    assert p2[0] != Separator[0];
    var s := ListRegion([p1, p2]);
    assert [p1, p2][1..] == [p2];
    assert Join([p2], Separator) == p2;
    assert s == Join([p1, p2], Separator);
    assert s == p1 + Separator + p2;
    assert s == Separator + (r + (Separator + "x"));
    assert s[..|Separator|] == Separator;
    assert s[|Separator|..] == r + (Separator + "x");
    assert Free(r, Separator[0]);
    FindAfterFree(r, Separator + "x", Separator);
    assert (Separator + "x")[..|Separator|] == Separator;
    var t := (r + (Separator + "x"))[|r| + |Separator|..];
    assert t == "x";
    assert Find("x", Separator).None?;
    assert Find(s, Separator) == Some(0);
    var u := s[|Separator|..];
    assert Find(u, Separator) == Some(|r|);
    assert u[|r| + |Separator|..] == "x";
    assert Count("x", Separator) == 0;
    assert Count(u, Separator) == 1;
    assert Count(s, Separator) == 2;
  }

  /** With one path there is no separator; with none, KERNELS_TO_LOAD holds the empty string ''. */
  lemma ListRegionSmallCases(path: string, rootDir: string)
    ensures ListRegion([path]) == path
    ensures EndsWith(MetaContents([], rootDir), "(\n    ''\n)\n")
  {
    var m := MetaContents([], rootDir);
    assert m == Head + rootDir + Middle + Tail;
    assert m[|m| - 11..] == "(\n    ''\n)\n";
  }

  /** No paths and the single empty path give the same text, so no reader can tell them apart. */
  lemma EmptyListAmbiguous(rootDir: string)
    ensures MetaContents([], rootDir) == MetaContents([""], rootDir)
  {
  }

  /** Reads the kernel paths back out of meta-kernel text with the given package directory. */
  function ReadPaths(contents: string, rootDir: string): Option<seq<string>> {
    var p := |MetaPrefix(rootDir)|;
    if IsPrefix(MetaPrefix(rootDir), contents) && |contents| >= p + |Tail| && EndsWith(contents, Tail)
    then Some(Split(contents[p..|contents| - |Tail|], Separator))
    else None
  }

  /** Reading the paths back out of the contents gives the paths that went in. */
  lemma ReadPathsRoundTrip(paths: seq<string>, rootDir: string)
    requires |paths| > 0
    requires forall k :: 0 <= k < |paths| ==> Free(paths[k], '\'')
    ensures ReadPaths(MetaContents(paths, rootDir), rootDir) == Some(paths)
  {
    var m := MetaContents(paths, rootDir);
    var p := |MetaPrefix(rootDir)|;
    assert m[p..|m| - |Tail|] == ListRegion(paths);
    SplitJoin(paths, Separator);
  }
}

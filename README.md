# SPICEtools: meta-kernel text and ephemeris download planning

SPICEtools is a thin Python layer over the NAIF SPICE toolkit. Two small
pieces of it are plain string and path logic, and this project models both:

- `make_meta` writes a NAIF meta-kernel. The text has a `\begintext` comment
  block, then a `\begindata` block. In it, `PATH_VALUES` is bound to the
  package's `kernels/` directory, `PATH_SYMBOLS` to the symbol `KERNELS`,
  and `KERNELS_TO_LOAD` to the caller's kernel paths. Each path is quoted,
  and the paths are separated by `',`, a newline and four spaces. The text is
  built by splicing the package directory into a template and then calling
  Python's `str.format` with the joined paths.
- `download_jpl_de` works out four things before it touches the network:
  the file name of a JPL planetary ephemeris (with `.bsp` appended if it is
  missing), the output path (by default `<package>/kernels/<name>`), whether
  to skip the download (the file exists and `overwrite` is off), and the URL
  under `https://ssd.jpl.nasa.gov/ftp/eph/planets/bsp/`.

Modules:

- `Wrappers`: `Option` and `Result`.
- `Strings`: Python's `endswith`, `in`, `sep.join`, `s.split(sep)` and
  `s.count(sep)`, with the join/split round trip and the separator count.
- `PyFormat`: `template.format(arg)` with one positional argument. It covers
  brace escapes, automatic and manual numbering, and the errors Python
  raises.
- `KernelUtil`: the template and the meta-kernel text.
- `PurePath`: POSIX `pathlib` parsing, `str()`, the `/` operator and
  `.parent`.
- `QueryUtil`: the decisions of `download_jpl_de`.

Both core files are pure in the part modelled, so the model is made of
datatypes, functions and lemmas. It has no classes and no loops.

Inputs the model takes as parameters:

- `rootDir` is the package directory (`os.path.dirname(os.path.abspath(__file__))`).
- `moduleFile` is the module's `__file__`.
- `pathExists` is the file system's answer to `output.exists()`.

## Model

| member | source | states |
|---|---|---|
| Strings.Join | src/spicetools/kernelutil.py:43 | `sep.join(xs)`: empty for no items; otherwise the text ends exactly where the last item, at its join offset, ends |
| Strings.Split | src/spicetools/kernelutil.py:43 | `s.split(sep)` gives at least one piece, and joining the pieces with the separator gives `s` back |
| Strings.Count | src/spicetools/kernelutil.py:43 | `s.count(sep)` is zero exactly when the separator does not occur in `s` |
| Strings.SplitJoin | src/spicetools/kernelutil.py:43 | for a list of one or more items, none holding the separator's first character, splitting the joined text at the separator gives the list back |
| Strings.SeparatorCount | src/spicetools/kernelutil.py:43 | joining n items holds exactly n - 1 separators under the same condition |
| Strings.JoinAt | src/spicetools/kernelutil.py:43 | every item lies in full in the joined text, at its offset |
| Strings.JoinOrder | src/spicetools/kernelutil.py:43 | items are joined in list order: item i ends, with room for a separator after it, before any later item j starts |
| Strings.JoinNext | src/spicetools/kernelutil.py:43 | consecutive items are exactly one separator apart, and the separator occurs at the end of the first |
| PyFormat.Format | src/spicetools/kernelutil.py:43 | `template.format(arg)`: a template without braces formats to itself |
| PyFormat.FormatKeepsLiteralPrefix | src/spicetools/kernelutil.py:43 | a successful format of a template that opens with brace-free text opens with that text |
| PyFormat.OneField | src/spicetools/kernelutil.py:43 | a template of brace-free text around one `{}` formats to that text with the argument in the field |
| PyFormat.OneFieldEscaped | src/spicetools/kernelutil.py:43 | with the surrounding text escaped, any text at all can stand around the field |
| PyFormat.EscapeRoundTrip | src/spicetools/kernelutil.py:43 | formatting escaped text reproduces the text, whatever the argument |
| PyFormat.KeywordFieldFails | src/spicetools/kernelutil.py:43 | a field that names something other than an index raises KeyError for that name |
| PyFormat.FormatLiteralPrefix | src/spicetools/kernelutil.py:43 | brace-free text ahead of a template is copied unchanged, and errors after it pass through |
| KernelUtil.TemplateTextNoBraces | src/spicetools/kernelutil.py:6-23 | the template's own text holds no brace, so only the `{}` field is format syntax |
| KernelUtil.MetaTemplate | src/spicetools/kernelutil.py:6-23 | the template opens with the fixed head and the package directory and ends with `{}` and the tail; with a brace-free directory, the only braces are that `{}` |
| KernelUtil.MetaContentsAsWritten | src/spicetools/kernelutil.py:43 | `META_TEMPLATE.format(sep.join(args))` as written; whenever it succeeds, the text opens with the fixed head |
| KernelUtil.MetaContents | src/spicetools/kernelutil.py:6-23 | the text is the fixed prefix with the package directory, then the list region, then the fixed tail `'\n)\n` |
| KernelUtil.AsWrittenAgrees | src/spicetools/kernelutil.py:43 | for a package directory without braces, `META_TEMPLATE.format(...)` succeeds and gives MetaContents |
| KernelUtil.EscapedTemplateFormats | src/spicetools/kernelutil.py:43 | with the package directory escaped, format gives MetaContents for every directory |
| KernelUtil.AsWrittenFailsOnBraces | src/spicetools/kernelutil.py:14 | with the package under `/opt/{x}`, the code as written raises KeyError 'x', whatever the paths |
| KernelUtil.AsWrittenRewritesDoubledBraces | src/spicetools/kernelutil.py:14 | with the package under `/opt/{{x}}`, the code as written binds PATH_VALUES to `/opt/{x}/kernels/ ` |
| KernelUtil.PathsAppear | src/spicetools/kernelutil.py:43 | every kernel path occurs in full in the text, inside the list region at its join offset |
| KernelUtil.PathsInOrder | src/spicetools/kernelutil.py:43 | in the text, any earlier path i lies in full, then at least a separator's length, then any later path j in full |
| KernelUtil.PathsAdjacent | src/spicetools/kernelutil.py:43 | in the text, consecutive paths are exactly one separator apart, and the separator occurs between them |
| KernelUtil.TemplateIndependentOfPaths | src/spicetools/kernelutil.py:19-21 | two path lists give texts that agree on everything before the list region and on the tail |
| KernelUtil.PathValuesPresent | src/spicetools/kernelutil.py:13 | `PATH_VALUES` occurs, for every path list and directory |
| KernelUtil.PathSymbolsPresent | src/spicetools/kernelutil.py:17 | `PATH_SYMBOLS` occurs, for every path list and directory |
| KernelUtil.KernelsSymbolPresent | src/spicetools/kernelutil.py:17 | `KERNELS` occurs, for every path list and directory |
| KernelUtil.KernelsToLoadPresent | src/spicetools/kernelutil.py:19 | `KERNELS_TO_LOAD` occurs, for every path list and directory |
| KernelUtil.PathValuesEntry | src/spicetools/kernelutil.py:13-15 | PATH_VALUES is bound to the package directory followed by `/kernels/ `, at a fixed place in the text |
| KernelUtil.SeparatorsBetweenPaths | src/spicetools/kernelutil.py:43 | with n >= 1 paths and no quote in any of them, the list region holds n - 1 separators and splits back into the paths |
| KernelUtil.SeparatorInsideJoin | src/spicetools/kernelutil.py:43 | two paths that each lack the separator can still join into a region that holds two separators |
| KernelUtil.ListRegionSmallCases | src/spicetools/kernelutil.py:20-21 | one path is the list region by itself; with no paths the list is the empty quoted string `''` |
| KernelUtil.ReadPathsRoundTrip | src/spicetools/kernelutil.py:19-21 | for one or more paths with no quote in any of them, reading the list region back out of the text gives the paths that went in |
| KernelUtil.EmptyListAmbiguous | src/spicetools/kernelutil.py:20-21 | no paths and the single empty path give the same text |
| PurePath.SplitRoot | src/spicetools/queryutil.py:33 | the root and the rest make up the text; the root is "", "/" or "//", empty exactly when the text does not start with a slash, and "//" exactly when the text starts with two slashes and not three |
| PurePath.ToString | src/spicetools/tests/test_queryutil.py:16 | `str(path)` starts with the root and is never empty for a well-formed path |
| PurePath.Normalise | src/spicetools/queryutil.py:33 | the names kept when parsing are all valid parts |
| PurePath.NormaliseOne | src/spicetools/queryutil.py:33 | a single name is dropped if it is "" or ".", and kept otherwise, ".." included |
| PurePath.NormaliseConcat | src/spicetools/queryutil.py:33 | names are filtered one by one: normalising a concatenation concatenates the results, so the kept names stay in order |
| PurePath.ParseRelativeNames | src/spicetools/queryutil.py:33 | text of slash-free names that does not start with a slash parses to a relative path of the names Normalise keeps |
| PurePath.ParseCollapses | src/spicetools/queryutil.py:33 | `Path("a//./b")` is the relative path a/b |
| PurePath.ParseKeepsDotDot | src/spicetools/queryutil.py:33 | `Path("a/../b")` keeps ".." as a part: a/../b |
| PurePath.Parse | src/spicetools/queryutil.py:33 | `Path(s)` is always well formed: root "", "/" or "//", and parts that are non-empty, not "." and free of slashes |
| PurePath.ParseToString | src/spicetools/queryutil.py:33 | parsing the printed form of a well-formed path gives the path back |
| PurePath.ParseIdempotent | src/spicetools/queryutil.py:33 | `Path(str(Path(s)))` equals `Path(s)`, so passing a Path as `output` changes nothing |
| PurePath.JoinPath | src/spicetools/queryutil.py:31 | the `/` operator keeps paths well formed |
| PurePath.JoinName | src/spicetools/queryutil.py:31 | joining a plain name appends it as the last part |
| PurePath.JoinAbsolute | src/spicetools/queryutil.py:31 | joining an absolute path gives that path, whatever the left side |
| PurePath.Parent | src/spicetools/queryutil.py:31 | `.parent` keeps the root and drops exactly the last part |
| PurePath.ToStringSnoc | src/spicetools/queryutil.py:31 | one more part prints as the old text, a slash and the part |
| QueryUtil.NormaliseName | src/spicetools/queryutil.py:26-27 | the name always ends in `.bsp`, starts with the given name, and is either unchanged or has exactly `.bsp` appended |
| QueryUtil.NormaliseKeeps | src/spicetools/queryutil.py:26-27 | the name is returned unchanged exactly when it already ends in `.bsp` |
| QueryUtil.NormaliseIdempotent | src/spicetools/queryutil.py:26-27 | normalising twice is normalising once |
| QueryUtil.KernelsDir | src/spicetools/queryutil.py:31 | the kernels directory is the module file's parent with `kernels` appended |
| QueryUtil.ResolveOutput | src/spicetools/queryutil.py:29-33 | the output path is well formed, and a given output is used as it parses |
| QueryUtil.DefaultOutputInKernels | src/spicetools/queryutil.py:29-31 | with no output, a plain name lands at `<package parts>/kernels/<normalised name>` |
| QueryUtil.DefaultOutputText | src/spicetools/queryutil.py:31 | the same path prints as the package directory, `/kernels/` and the normalised name |
| QueryUtil.RelativeNameUnderKernels | src/spicetools/queryutil.py:29-31 | with no output, a name that is not absolute contributes all its parts after `kernels` |
| QueryUtil.SubdirectoryName | src/spicetools/queryutil.py:29-31 | with no output, `sub/de440s` lands at `<package parts>/kernels/sub/de440s.bsp` |
| QueryUtil.AbsoluteNameOverridesKernelsDir | src/spicetools/queryutil.py:31 | with no output, an absolute name is used as the path itself |
| QueryUtil.DefaultNameMatchesTest | src/spicetools/tests/test_queryutil.py:11-16 | `de440s` with no output resolves to the package directory joined with `kernels/de440s.bsp` |
| QueryUtil.DownloadUrl | src/spicetools/queryutil.py:39 | the URL is the JPL planets directory followed by the normalised name, and ends in `.bsp` |
| QueryUtil.UrlDeterminesName | src/spicetools/queryutil.py:39 | two names give the same URL exactly when they normalise to the same file name |
| QueryUtil.PlanDownload | src/spicetools/queryutil.py:35-39 | in both branches the resolved path is returned; the download is skipped exactly when the path exists and overwrite is off; otherwise the URL is DownloadUrl |
| QueryUtil.SuffixOptional | src/spicetools/queryutil.py:26-39 | asking for `name` or `name.bsp` gives the same path, the same skip decision and the same URL |

## Left out

- The file write in `make_meta` (`src/spicetools/kernelutil.py:45-46`) is file I/O. The model stops at the text.
- The download, the write and the message in `download_jpl_de` (`src/spicetools/queryutil.py:40-46`) are network and file I/O. `PlanDownload` returns the URL that would be fetched.
- `output.exists()` is modelled as the predicate `pathExists` on the resolved path. The file system itself is not part of this model.
- `__file__` and the package directory are parameters (`moduleFile`, `rootDir`). `os.path.abspath` is not modelled.
- Only POSIX paths are modelled. Windows drive letters and backslashes are not.
- `output` may be a string or a `Path`. The model takes its text; `PurePath.ParseIdempotent` shows that re-parsing a path changes nothing.
- `str.format` is modelled for one positional argument only. A field with a conversion (`!r`), a format spec (`:>10`), attribute or item access, or a nested field is reported as the error `UnsupportedField`. Python formats many of these successfully for a str argument (`"{:}".format("ARG")` is `"ARG"`, `"{0[0]}".format("ARG")` is `"A"`), so the model turns those successes into errors.
- PyFormat.Format: an argument index counts only if it is written in ASCII digits. Python also accepts other Unicode decimal digits, so `"{٠}".format(a)` is `a` in Python, where the model gives `MissingKey`. An index too large for Python's machine-sized integer raises ValueError ("Too many decimal digits") in Python, where the model gives `IndexOutOfRange`.
- Inside the meta-kernel template none of these differences changes whether `make_meta` succeeds; only the kind of error differs. Any replacement field in the package directory fails in one of two ways. It may fail on its own: KeyError for a keyword name such as `{x!r}`, or ValueError for a bad format spec or a stray brace. Otherwise it uses up the one argument or switches to manual numbering, and the template's own `{}` then fails with IndexError or the numbering-switch ValueError.
- KernelUtil.ReadPathsRoundTrip: requires at least one path and no quote in any path. With no paths the text equals the text for the single path "" (`KernelUtil.EmptyListAmbiguous`). A quote in a path can be read as the start of a separator (`KernelUtil.SeparatorInsideJoin`).
- KernelUtil.SeparatorsBetweenPaths: requires that no path holds a quote, which is stronger than requiring that no path holds the separator. `KernelUtil.SeparatorInsideJoin` shows the weaker condition does not give n - 1.
- How NAIF's kernel loader reads the meta-kernel (symbol substitution of `$KERNELS`, path length limits) is not modelled.
- `phase.py` is floating-point transcendental arithmetic and is not part of this model.
- `typeutil.py` (ctypes constructors) and `timeutil.py` (calls into astropy and the SPICE library) are foreign calls and are not part of this model.
- The test files that check downloaded bytes or need the SPICE library are not modelled.

## Findings

| source | as written | input that shows it | evidently intended | confidence | as-written member | corrected member |
|---|---|---|---|---|---|---|
| src/spicetools/kernelutil.py:14 | the package directory is spliced into the template before `.format` is called, so any braces in it are read as format syntax | package installed under `/opt/{x}`: `make_meta` raises KeyError 'x'; under `/opt/{{x}}`: PATH_VALUES is bound to `/opt/{x}/kernels/ `, a directory that is not the package's | PATH_VALUES holds the package directory exactly, for every directory | not executed | KernelUtil.MetaContentsAsWritten (KernelUtil.AsWrittenFailsOnBraces, KernelUtil.AsWrittenRewritesDoubledBraces) | KernelUtil.MetaContents (KernelUtil.EscapedTemplateFormats, KernelUtil.PathValuesEntry) |

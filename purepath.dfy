/** The part of Python's pathlib that download_jpl_de relies on, for POSIX
    paths: parsing a string into a root and a list of parts, printing it
    back, the `/` operator and `.parent`. */
module PurePath {
  import opened Wrappers
  import opened Strings

  /** A parsed path: root is "", "/" or "//" (POSIX keeps exactly two leading
      slashes apart); parts are the names between slashes. */
  datatype PosixPath = PosixPath(root: string, parts: seq<string>)

  /** A name pathlib keeps as a part: not empty, not ".", and no slash in it. */
  predicate ValidPart(s: string) {
    s != "" && s != "." && Free(s, '/')
  }

  predicate WellFormed(p: PosixPath) {
    (p.root == "" || p.root == "/" || p.root == "//")
    && forall k :: 0 <= k < |p.parts| ==> ValidPart(p.parts[k])
  }

  /** Separate the root from the rest: two leading slashes are a root of their
      own, one or three or more are the root "/". */
  function SplitRoot(s: string): (r: (string, string))
    ensures r.0 + r.1 == s
    ensures r.0 == "" <==> |s| == 0 || s[0] != '/'
    ensures r.0 == "//" <==> |s| >= 2 && s[0] == '/' && s[1] == '/' && (|s| == 2 || s[2] != '/')
    ensures r.0 == "//" ==> |r.1| == 0 || r.1[0] != '/'
    ensures r.0 == "" || r.0 == "/" || r.0 == "//"
  {
    if |s| == 0 || s[0] != '/' then ("", s)
    else if |s| >= 2 && s[1] == '/' && (|s| == 2 || s[2] != '/') then (assert s == s[..2] + s[2..]; ("//", s[2..]))
    else (assert s == [s[0]] + s[1..]; ("/", s[1..]))
  }

  /** Drop the empty and "." names, as pathlib does when it parses. */
  function Normalise(names: seq<string>): (r: seq<string>)
    requires forall k :: 0 <= k < |names| ==> Free(names[k], '/')
    ensures forall k :: 0 <= k < |r| ==> ValidPart(r[k])
    decreases |names|
  {
    if names == [] then []
    else if names[0] == "" || names[0] == "." then Normalise(names[1..])
    else [names[0]] + Normalise(names[1..])
  }

  /** One name: dropped if it is "" or ".", kept otherwise (".." included). */
  lemma NormaliseOne(x: string)
    requires Free(x, '/')
    ensures Normalise([x]) == if x == "" || x == "." then [] else [x]
  {
    assert [x][1..] == [];
  }

  /** Normalise works name by name: it keeps the order of the names it does not drop. */
  lemma {:induction false} NormaliseConcat(a: seq<string>, b: seq<string>)
    requires forall k :: 0 <= k < |a| ==> Free(a[k], '/')
    requires forall k :: 0 <= k < |b| ==> Free(b[k], '/')
    ensures Normalise(a + b) == Normalise(a) + Normalise(b)
    decreases |a|
  {
    if a == [] {
      assert a + b == b;
    } else {
      assert (a + b)[0] == a[0];
      assert (a + b)[1..] == a[1..] + b;
      NormaliseConcat(a[1..], b);
    }
  }

  /** Names already valid survive Normalise unchanged. */
  lemma {:induction false} NormaliseValid(names: seq<string>)
    requires forall k :: 0 <= k < |names| ==> Free(names[k], '/')
    requires forall k :: 0 <= k < |names| ==> ValidPart(names[k])
    ensures Normalise(names) == names
    decreases |names|
  {
    if names != [] {
      NormaliseValid(names[1..]);
    }
  }

  /** A string without an occurrence of the one-character string [c] lacks c. */
  lemma NotContainsFree(s: string, c: char)
    requires !Contains(s, [c])
    ensures Free(s, c)
  {
    forall k | 0 <= k < |s| ensures ContainsAt(s, [c], k) <==> s[k] == c {
      assert s[k..k + 1] == [s[k]];
    }
  }

  /** The pieces of a string split at '/' hold no slash. */
  lemma SplitSlashFree(s: string)
    ensures forall k :: 0 <= k < |Split(s, "/")| ==> Free(Split(s, "/")[k], '/')
  {
    SplitPiecesFree(s, "/");
    forall k | 0 <= k < |Split(s, "/")| ensures Free(Split(s, "/")[k], '/') {
      NotContainsFree(Split(s, "/")[k], '/');
    }
  }

  /** Python PurePosixPath(s). */
  function Parse(s: string): (p: PosixPath)
    ensures WellFormed(p)
  {
    var (root, rest) := SplitRoot(s);
    SplitSlashFree(rest);
    PosixPath(root, Normalise(Split(rest, "/")))
  }

  /** Python str(path): the root, then the parts joined by '/', or "." for an empty relative path. */
  function ToString(p: PosixPath): (r: string)
    ensures WellFormed(p) ==> |r| > 0
    ensures IsPrefix(p.root, r)
  {
    if p.root == "" && p.parts == [] then "." else p.root + Join(p.parts, "/")
  }

  /** Python `p / s`: an absolute right side replaces the left; otherwise its parts are appended. */
  function JoinPath(p: PosixPath, s: string): (r: PosixPath)
    requires WellFormed(p)
    ensures WellFormed(r)
  {
    var q := Parse(s);
    if q.root != "" then q else PosixPath(p.root, p.parts + q.parts)
  }

  /** Python path.parent: the last part dropped; a path without parts is its own parent. */
  function Parent(p: PosixPath): (r: PosixPath)
    requires WellFormed(p)
    ensures WellFormed(r) && r.root == p.root
    ensures p.parts != [] ==> r.parts + [p.parts[|p.parts| - 1]] == p.parts
  {
    if p.parts == [] then p else PosixPath(p.root, p.parts[..|p.parts| - 1])
  }

  /** The joined parts of a well-formed path do not start with a slash. */
  lemma JoinedPartsStart(parts: seq<string>)
    requires |parts| > 0 && forall k :: 0 <= k < |parts| ==> ValidPart(parts[k])
    ensures ValidPart(parts[0]) && |Join(parts, "/")| > 0 && Join(parts, "/")[0] == parts[0][0]
  {
    assert ValidPart(parts[0]);
    JoinAt(parts, "/", 0);
    assert Join(parts, "/")[0..|parts[0]|] == parts[0];
  }

  /** Printing a well-formed path and parsing the text gives the path back. */
  lemma ParseToString(p: PosixPath)
    requires WellFormed(p)
    ensures Parse(ToString(p)) == p
  {
    var s := ToString(p);
    if p.parts == [] {
      if p.root == "" {
        assert SplitRoot(s) == ("", ".");
        assert Find(".", "/").None?;
        assert Split(".", "/") == ["."];
        assert ["."][1..] == [];
        assert Normalise(["."]) == [];
      } else {
        assert Join(p.parts, "/") == "";
        assert s == p.root;
        assert SplitRoot(s).1 == "";
        assert Find("", "/").None?;
        assert Split("", "/") == [""];
        assert [""][1..] == [];
        assert Normalise([""]) == [];
      }
    } else {
      var j := Join(p.parts, "/");
      JoinedPartsStart(p.parts);
      assert p.parts[0][0] != '/';
      assert s == p.root + j;
      if p.root == "" {
        assert s == j;
        assert SplitRoot(s) == ("", j);
      } else if p.root == "/" {
        assert s[1..] == j;
        assert SplitRoot(s) == ("/", j);
      } else {
        assert s[2..] == j;
        assert SplitRoot(s) == ("//", j);
      }
      forall k | 0 <= k < |p.parts| ensures Free(p.parts[k], "/"[0]) {
        assert ValidPart(p.parts[k]);
      }
      SplitJoin(p.parts, "/");
      NormaliseValid(p.parts);
    }
  }

  /** Parsing is idempotent: printing a parsed path and parsing again changes nothing. */
  lemma ParseIdempotent(s: string)
    ensures Parse(ToString(Parse(s))) == Parse(s)
  {
    ParseToString(Parse(s));
  }

  /** A single valid name parses to a relative path of that one part. */
  lemma ParseName(name: string)
    requires ValidPart(name)
    ensures Parse(name) == PosixPath("", [name])
  {
    ParseToString(PosixPath("", [name]));
  }

  /** Splitting text made of slash-free names joined by '/' gives the names back. */
  lemma SplitNames(names: seq<string>)
    requires |names| > 0 && forall k :: 0 <= k < |names| ==> Free(names[k], '/')
    ensures Split(Join(names, "/"), "/") == names
  {
    forall k | 0 <= k < |names| ensures Free(names[k], "/"[0]) {
      assert Free(names[k], '/');
    }
    SplitJoin(names, "/");
  }

  /** Text of slash-free names that does not start with a slash parses to the names kept by Normalise. */
  lemma ParseRelativeNames(names: seq<string>)
    requires |names| > 0 && |names[0]| > 0
    requires forall k :: 0 <= k < |names| ==> Free(names[k], '/')
    ensures Parse(Join(names, "/")) == PosixPath("", Normalise(names))
  {
    var s := Join(names, "/");
    JoinAt(names, "/", 0);
    assert s[0] == s[0..|names[0]|][0] == names[0][0];
    assert SplitRoot(s) == ("", s);
    SplitNames(names);
  }

  /** The text "a//./b" as its names between slashes. */
  lemma CollapseExampleText()
    ensures Join(["a", "", ".", "b"], "/") == "a//./b"
  {
    var xs := ["a", "", ".", "b"];
    assert xs[1..] == ["", ".", "b"] && xs[1..][1..] == [".", "b"] && xs[1..][1..][1..] == ["b"];
    assert Join([".", "b"], "/") == "./b";
    assert Join(["", ".", "b"], "/") == "/./b";
  }

  /** The names of "a//./b" that pathlib keeps. */
  lemma CollapseExampleNames()
    ensures Normalise(["a", "", ".", "b"]) == ["a", "b"]
  {
    var xs := ["a", "", ".", "b"];
    assert xs[1..] == ["", ".", "b"] && xs[1..][1..] == [".", "b"] && xs[1..][1..][1..] == ["b"];
    assert Normalise(["b"]) == ["b"] by {
      NormaliseOne("b");
    }
  }

  /** pathlib drops empty names and "." when it parses: "a//./b" is a/b. */
  lemma ParseCollapses()
    ensures Parse("a//./b") == PosixPath("", ["a", "b"])
  {
    var xs := ["a", "", ".", "b"];
    assert Free("a", '/') && Free("", '/') && Free(".", '/') && Free("b", '/');
    ParseRelativeNames(xs);
    CollapseExampleText();
    CollapseExampleNames();
  }

  /** The text "a/../b" as its names between slashes. */
  lemma DotDotExampleText()
    ensures Join(["a", "..", "b"], "/") == "a/../b"
  {
    var xs := ["a", "..", "b"];
    assert xs[1..] == ["..", "b"] && xs[1..][1..] == ["b"];
    assert Join(["..", "b"], "/") == "../b";
  }

  /** ".." is a name like any other: "a/../b" keeps it, with no collapsing of the parent. */
  lemma ParseKeepsDotDot()
    ensures Parse("a/../b") == PosixPath("", ["a", "..", "b"])
  {
    var xs := ["a", "..", "b"];
    assert ValidPart("a") && ValidPart("..") && ValidPart("b");
    ParseRelativeNames(xs);
    DotDotExampleText();
    NormaliseValid(xs);
  }

  /** Joining a valid name appends it as the last part. */
  lemma JoinName(p: PosixPath, name: string)
    requires WellFormed(p) && ValidPart(name)
    ensures JoinPath(p, name) == PosixPath(p.root, p.parts + [name])
  {
    ParseName(name);
  }

  /** Joining a text that parses to an absolute path gives that path, whatever the left side. */
  lemma JoinAbsolute(p: PosixPath, s: string)
    requires WellFormed(p) && |s| > 0 && s[0] == '/'
    ensures JoinPath(p, s) == Parse(s)
  {
  }

  /** The text of a path with one more part: a slash and the part after the old text. */
  lemma ToStringSnoc(p: PosixPath, name: string)
    requires p.parts != []
    ensures ToString(PosixPath(p.root, p.parts + [name])) == ToString(p) + "/" + name
  {
    var q := PosixPath(p.root, p.parts + [name]);
    JoinSnoc(p.parts, name, "/");
    assert ToString(q) == p.root + Join(p.parts + [name], "/");
    assert ToString(p) == p.root + Join(p.parts, "/");
  }
}

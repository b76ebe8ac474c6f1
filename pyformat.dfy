/** Python's str.format called with exactly one positional argument, as
    `template.format(arg)`. The template is read left to right: `{{` and
    `}}` stand for single braces, `{}` takes the next automatic argument
    index, `{N}` names argument N, any other field name is looked up as a
    keyword (there are none), and the first error met is the one raised. */
module PyFormat {
  import opened Wrappers
  import opened Strings

  /** The exceptions str.format raises, by cause. */
  datatype FormatError =
    | UnmatchedOpen          // ValueError: a '{' with no closing '}'
    | UnmatchedClose         // ValueError: "Single '}' encountered"
    | IndexOutOfRange(index: nat)  // IndexError: only index 0 exists
    | MissingKey(name: string)     // KeyError: no keyword arguments were given
    | NumberingSwitch        // ValueError: automatic and manual numbering mixed
    | UnsupportedField       // conversions, format specs, attribute or item access

  /** Which numbering style the fields seen so far used. */
  datatype Numbering = Unnumbered | Automatic(next: nat) | Manual

  /** The text contains neither '{' nor '}'. */
  predicate NoBraces(s: string) {
    forall k :: 0 <= k < |s| ==> s[k] != '{' && s[k] != '}'
  }

  predicate IsDigit(c: char) {
    '0' <= c <= '9'
  }

  predicate AllDigits(s: string) {
    |s| > 0 && forall k :: 0 <= k < |s| ==> IsDigit(s[k])
  }

  /** The decimal value of a string of digits. */
  function DigitsValue(s: string): nat
    requires forall k :: 0 <= k < |s| ==> IsDigit(s[k])
    decreases |s|
  {
    if s == [] then 0
    else
      assert IsDigit(s[|s| - 1]);
      DigitsValue(s[..|s| - 1]) * 10 + (s[|s| - 1] as int - '0' as int)
  }

  /** Characters that make a field more than a plain argument name or index. */
  predicate HasFieldSyntax(s: string) {
    exists k :: 0 <= k < |s| && s[k] in {'!', ':', '.', '[', '{'}
  }

  /** The index of the first `c` in `s`. */
  function IndexOf(s: string, c: char): (r: Option<nat>)
    ensures r.Some? ==> r.value < |s| && s[r.value] == c && Free(s[..r.value], c)
    ensures r.None? ==> Free(s, c)
    decreases |s|
  {
    if s == [] then None
    else if s[0] == c then Some(0)
    else match IndexOf(s[1..], c)
      case None => None
      case Some(k) => (assert s[..k + 1] == [s[0]] + s[1..][..k]; Some(k + 1))
  }

  /** The text one replacement field `{field}` stands for, and the numbering state after it. */
  function Field(field: string, arg: string, n: Numbering): Result<(string, Numbering), FormatError> {
    if field == "" then
      match n
        case Manual => Failure(NumberingSwitch)
        case Automatic(k) => Failure(IndexOutOfRange(k))
        case Unnumbered => Success((arg, Automatic(1)))
    else if HasFieldSyntax(field) then Failure(UnsupportedField)
    else if AllDigits(field) then
      if n.Automatic? then Failure(NumberingSwitch)
      else if DigitsValue(field) == 0 then Success((arg, Manual))
      else Failure(IndexOutOfRange(DigitsValue(field)))
    else Failure(MissingKey(field))
  }

  /** Put `s` in front of a successful result; pass an error through. */
  function Prepend(s: string, r: Result<string, FormatError>): Result<string, FormatError> {
    match r
      case Success(t) => Success(s + t)
      case Failure(e) => Failure(e)
  }

  /** Format the rest `t` of a template, given the numbering state so far. */
  function FormatFrom(t: string, arg: string, n: Numbering): (r: Result<string, FormatError>)
    ensures NoBraces(t) ==> r == Success(t)
    decreases |t|
  {
    if t == [] then Success([])
    else if t[0] == '{' then
      if |t| > 1 && t[1] == '{' then Prepend("{", FormatFrom(t[2..], arg, n))
      else match IndexOf(t[1..], '}')
        case None => Failure(UnmatchedOpen)
        case Some(k) =>
          match Field(t[1..k + 1], arg, n)
            case Failure(e) => Failure(e)
            case Success(out) => Prepend(out.0, FormatFrom(t[k + 2..], arg, out.1))
    else if t[0] == '}' then
      if |t| > 1 && t[1] == '}' then Prepend("}", FormatFrom(t[2..], arg, n))
      else Failure(UnmatchedClose)
    else (assert t == [t[0]] + t[1..]; Prepend([t[0]], FormatFrom(t[1..], arg, n)))
  }

  /** Python `template.format(arg)`. */
  function Format(template: string, arg: string): (r: Result<string, FormatError>)
    ensures NoBraces(template) ==> r == Success(template)
  {
    FormatFrom(template, arg, Unnumbered)
  }

  /** Python's escaping of literal text for a template: each brace doubled. */
  function EscapeBraces(s: string): (r: string)
    ensures NoBraces(s) ==> r == s
    decreases |s|
  {
    if s == [] then []
    else if s[0] == '{' || s[0] == '}' then [s[0], s[0]] + EscapeBraces(s[1..])
    else [s[0]] + EscapeBraces(s[1..])
  }

  lemma NoBracesConcat(a: string, b: string)
    requires NoBraces(a) && NoBraces(b)
    ensures NoBraces(a + b)
  {
    assert forall k :: 0 <= k < |b| ==> (a + b)[|a| + k] == b[k];
  }

  /** Escaping distributes over concatenation. */
  lemma {:induction false} EscapeConcat(a: string, b: string)
    ensures EscapeBraces(a + b) == EscapeBraces(a) + EscapeBraces(b)
    decreases |a|
  {
    if a == [] {
      assert a + b == b;
    } else {
      assert (a + b)[0] == a[0];
      assert (a + b)[1..] == a[1..] + b;
      EscapeConcat(a[1..], b);
    }
  }

  /** Literal text in front of the rest of a template is copied as it is, whatever the numbering state. */
  lemma {:induction false} FormatLiteralPrefix(a: string, rest: string, arg: string, n: Numbering)
    requires NoBraces(a)
    ensures FormatFrom(a + rest, arg, n) == Prepend(a, FormatFrom(rest, arg, n))
    decreases |a|
  {
    if a == [] {
      assert a + rest == rest;
      match FormatFrom(rest, arg, n)
        case Success(t) => assert a + t == t;
        case Failure(_) =>
    } else {
      var t := a + rest;
      assert t[0] == a[0] && t[0] != '{' && t[0] != '}';
      assert t[1..] == a[1..] + rest;
      assert FormatFrom(t, arg, n) == Prepend([a[0]], FormatFrom(a[1..] + rest, arg, n));
      FormatLiteralPrefix(a[1..], rest, arg, n);
      PrependPrepend([a[0]], a[1..], FormatFrom(rest, arg, n));
      assert [a[0]] + a[1..] == a;
    }
  }

  /** A successful format of a template that opens with brace-free text opens with that text. */
  lemma FormatKeepsLiteralPrefix(a: string, rest: string, arg: string)
    requires NoBraces(a)
    ensures Format(a + rest, arg).Success? ==> IsPrefix(a, Format(a + rest, arg).value)
  {
    FormatLiteralPrefix(a, rest, arg, Unnumbered);
    match FormatFrom(rest, arg, Unnumbered)
      case Success(t) => assert (a + t)[..|a|] == a;
      case Failure(_) =>
  }

  /** Prepending twice is prepending the concatenation. */
  lemma PrependPrepend(x: string, y: string, r: Result<string, FormatError>)
    ensures Prepend(x, Prepend(y, r)) == Prepend(x + y, r)
  {
    match r
      case Success(t) => assert x + (y + t) == x + y + t;
      case Failure(_) =>
  }

  /** One escaped character in front of the rest of a template comes out as that character. */
  lemma FormatEscapedChar(c: char, rest: string, arg: string, n: Numbering)
    ensures FormatFrom(EscapeBraces([c]) + rest, arg, n) == Prepend([c], FormatFrom(rest, arg, n))
  {
    var t := EscapeBraces([c]) + rest;
    if c == '{' || c == '}' {
      assert EscapeBraces([c]) == [c, c];
      assert t[0] == c && t[1] == c;
      assert t[2..] == rest;
    } else {
      assert EscapeBraces([c]) == [c];
      assert t[0] == c;
      assert t[1..] == rest;
    }
  }

  /** Escaped text in front of the rest of a template comes out as the original text. */
  lemma {:induction false} FormatEscapedPrefix(a: string, rest: string, arg: string, n: Numbering)
    ensures FormatFrom(EscapeBraces(a) + rest, arg, n) == Prepend(a, FormatFrom(rest, arg, n))
    decreases |a|
  {
    if a == [] {
      assert EscapeBraces(a) + rest == rest;
      match FormatFrom(rest, arg, n)
        case Success(t) => assert a + t == t;
        case Failure(_) =>
    } else {
      var e := EscapeBraces(a[1..]) + rest;
      assert EscapeBraces(a) == EscapeBraces([a[0]]) + EscapeBraces(a[1..]) by {
        assert [a[0]][1..] == [];
      }
      assert EscapeBraces(a) + rest == EscapeBraces([a[0]]) + e;
      FormatEscapedChar(a[0], e, arg, n);
      FormatEscapedPrefix(a[1..], rest, arg, n);
      PrependPrepend([a[0]], a[1..], FormatFrom(rest, arg, n));
      assert [a[0]] + a[1..] == a;
    }
  }

  /** A replacement field `{f}` at the front of a template is replaced by what Field gives for it. */
  lemma FieldAtFront(f: string, rest: string, arg: string, n: Numbering)
    requires Free(f, '}') && (f == [] || f[0] != '{')
    ensures Field(f, arg, n).Failure? ==> FormatFrom("{" + f + "}" + rest, arg, n) == Failure(Field(f, arg, n).error)
    ensures Field(f, arg, n).Success? ==>
      var out := Field(f, arg, n).value;
      FormatFrom("{" + f + "}" + rest, arg, n) == Prepend(out.0, FormatFrom(rest, arg, out.1))
  {
    var t := "{" + f + "}" + rest;
    assert t[1..] == f + "}" + rest;
    assert t[0] == '{';
    assert |t| > 1 && t[1] == (if f == [] then '}' else f[0]);
    IndexPastFree(f, '}', rest);
    assert t[1..|f| + 1] == f;
    assert t[|f| + 2..] == rest;
  }

  /** After literal text, a field naming a keyword makes format raise KeyError. */
  lemma KeywordFieldFails(a: string, x: string, rest: string, arg: string)
    requires NoBraces(a) && x != [] && NoBraces(x) && !HasFieldSyntax(x) && !AllDigits(x)
    ensures Format(a + ("{" + x + "}" + rest), arg) == Failure(MissingKey(x))
  {
    FormatLiteralPrefix(a, "{" + x + "}" + rest, arg, Unnumbered);
    FieldAtFront(x, rest, arg, Unnumbered);
  }

  /** Escaping text that holds one field around a plain name doubles the field's braces. */
  lemma EscapeAroundName(a: string, x: string)
    requires NoBraces(a) && NoBraces(x)
    ensures EscapeBraces(a + "{" + x + "}") == a + "{{" + x + "}}"
  {
    EscapeConcat(a + "{" + x, "}");
    EscapeConcat(a + "{", x);
    EscapeConcat(a, "{");
    assert EscapeBraces("{") == "{{" && EscapeBraces("}") == "}}";
  }

  /** The first `c` after a prefix that lacks it is the one right after the prefix. */
  lemma {:induction false} IndexPastFree(f: string, c: char, rest: string)
    requires Free(f, c)
    ensures IndexOf(f + [c] + rest, c) == Some(|f|)
    decreases |f|
  {
    if f != [] {
      assert (f + [c] + rest)[1..] == f[1..] + [c] + rest;
      IndexPastFree(f[1..], c, rest);
    }
  }

  /** A template of literal text around one `{}` field formats to that text with `arg` in the field. */
  lemma OneField(a: string, b: string, arg: string)
    requires NoBraces(a) && NoBraces(b)
    ensures Format(a + "{}" + b, arg) == Success(a + arg + b)
  {
    var t := "{}" + b;
    assert a + "{}" + b == a + t;
    FormatLiteralPrefix(a, t, arg, Unnumbered);
    assert t == "{" + "" + "}" + b;
    FieldAtFront("", b, arg, Unnumbered);
    FormatLiteralPrefix(b, "", arg, Automatic(1));
    assert b + "" == b;
    assert FormatFrom(b, arg, Automatic(1)) == Success(b);
    assert a + arg + b == a + (arg + b);
  }

  /** The same with literal parts written in escaped form: any text can stand around the field. */
  lemma OneFieldEscaped(a: string, b: string, arg: string)
    ensures Format(EscapeBraces(a) + "{}" + EscapeBraces(b), arg) == Success(a + arg + b)
  {
    var t := "{}" + EscapeBraces(b);
    assert EscapeBraces(a) + "{}" + EscapeBraces(b) == EscapeBraces(a) + t;
    FormatEscapedPrefix(a, t, arg, Unnumbered);
    assert t[1..][0] == '}';
    assert IndexOf(t[1..], '}') == Some(0);
    assert t[1..1] == "";
    assert t[2..] == EscapeBraces(b);
    assert FormatFrom(t, arg, Unnumbered) == Prepend(arg, FormatFrom(EscapeBraces(b), arg, Automatic(1)));
    FormatEscapedPrefix(b, "", arg, Automatic(1));
    assert EscapeBraces(b) + "" == EscapeBraces(b);
    assert FormatFrom(EscapeBraces(b), arg, Automatic(1)) == Success(b + []);
    assert b + [] == b;
    assert a + arg + b == a + (arg + b);
  }

  /** Formatting escaped text gives the text back, with any argument. */
  lemma EscapeRoundTrip(s: string, arg: string)
    ensures Format(EscapeBraces(s), arg) == Success(s)
  {
    FormatEscapedPrefix(s, "", arg, Unnumbered);
    assert EscapeBraces(s) + "" == EscapeBraces(s);
    assert s + "" == s;
  }
}

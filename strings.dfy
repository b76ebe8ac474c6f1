/** The few Python string operations the core relies on: str.endswith,
    str.join, str.split (with an explicit separator), str.count, and "in". */
module Strings {
  import opened Wrappers

  /** `p` is a prefix of `s` (Python s.startswith(p)). */
  predicate IsPrefix(p: string, s: string) {
    |p| <= |s| && s[..|p|] == p
  }

  /** Python s.endswith(x). */
  predicate EndsWith(s: string, x: string) {
    |x| <= |s| && s[|s| - |x|..] == x
  }

  /** `t` occurs in `s` starting at index `i`. */
  predicate ContainsAt(s: string, t: string, i: nat) {
    i + |t| <= |s| && s[i..i + |t|] == t
  }

  /** Python `t in s`. */
  predicate Contains(s: string, t: string) {
    exists i: nat :: i <= |s| && ContainsAt(s, t, i)
  }

  /** Python sep.join(xs): empty for no items; otherwise the last item ends the text. */
  function Join(xs: seq<string>, sep: string): (r: string)
    ensures |xs| == 0 ==> r == ""
    ensures |xs| > 0 ==> |r| == JoinOffset(xs, sep, |xs| - 1) + |xs[|xs| - 1]|
  {
    if |xs| == 0 then ""
    else if |xs| == 1 then xs[0]
    else xs[0] + sep + Join(xs[1..], sep)
  }

  /** The index at which xs[i] starts inside Join(xs, sep). */
  function JoinOffset(xs: seq<string>, sep: string, i: nat): nat
    requires i < |xs|
  {
    if i == 0 then 0 else |xs[0]| + |sep| + JoinOffset(xs[1..], sep, i - 1)
  }

  /** The leftmost index at which `sep` occurs in `s` (Python s.find(sep), with None for -1). */
  function Find(s: string, sep: string): (r: Option<nat>)
    requires |sep| > 0
    ensures r.Some? ==> ContainsAt(s, sep, r.value)
    ensures r.Some? ==> forall j: nat :: j < r.value ==> !ContainsAt(s, sep, j)
    ensures r.None? ==> forall j: nat :: !ContainsAt(s, sep, j)
    decreases |s|
  {
    if |s| < |sep| then None
    else if s[..|sep|] == sep then Some(0)
    else
      ContainsAtTail(s, sep);
      match Find(s[1..], sep)
      case None => None
      case Some(k) => Some(k + 1)
  }

  /** An occurrence past index 0 is an occurrence in the tail, one index earlier. */
  lemma ContainsAtTail(s: string, t: string)
    requires |s| > 0
    ensures forall j: nat :: j > 0 ==> (ContainsAt(s, t, j) <==> ContainsAt(s[1..], t, j - 1))
  {
    forall j: nat | j > 0 ensures ContainsAt(s, t, j) <==> ContainsAt(s[1..], t, j - 1) {
      if j + |t| <= |s| {
        var a, b := s[1..][j - 1..j - 1 + |t|], s[j..j + |t|];
        forall k | 0 <= k < |t| ensures a[k] == b[k] { }
        assert a == b;
      }
    }
  }

  /** Python s.split(sep): the pieces between leftmost non-overlapping occurrences of sep. */
  function Split(s: string, sep: string): (r: seq<string>)
    requires |sep| > 0
    ensures |r| > 0
    ensures Join(r, sep) == s
    decreases |s|
  {
    match Find(s, sep)
      case None => [s]
      case Some(i) =>
        var rest := Split(s[i + |sep|..], sep);
        var r := [s[..i]] + rest;
        assert r[1..] == rest;
        assert s == s[..i] + sep + s[i + |sep|..];
        r
  }

  /** Python s.count(sep): the number of leftmost non-overlapping occurrences of sep. */
  function Count(s: string, sep: string): (r: nat)
    requires |sep| > 0
    ensures r == 0 <==> !Contains(s, sep)
    decreases |s|
  {
    match Find(s, sep)
      case None => 0
      case Some(i) => 1 + Count(s[i + |sep|..], sep)
  }

  /** Splitting finds one more piece than the number of separators counted. */
  lemma {:induction false} SplitCount(s: string, sep: string)
    requires |sep| > 0
    ensures |Split(s, sep)| == Count(s, sep) + 1
    decreases |s|
  {
    match Find(s, sep)
      case None =>
      case Some(i) => SplitCount(s[i + |sep|..], sep);
  }

  /** Every piece Split returns is free of the separator. */
  lemma {:induction false} SplitPiecesFree(s: string, sep: string)
    requires |sep| > 0
    ensures forall k :: 0 <= k < |Split(s, sep)| ==> !Contains(Split(s, sep)[k], sep)
    decreases |s|
  {
    match Find(s, sep)
      case None =>
      case Some(i) =>
        SplitPiecesFree(s[i + |sep|..], sep);
        var piece := s[..i];
        forall j: nat | ContainsAt(piece, sep, j) ensures false {
          assert ContainsAt(s, sep, j);
        }
  }

  /** `c` does not occur in `s`. */
  predicate Free(s: string, c: char) {
    forall k :: 0 <= k < |s| ==> s[k] != c
  }

  /** A prefix that lacks the separator's first character cannot hold the start of an occurrence. */
  lemma {:induction false} FindAfterFree(p: string, r: string, sep: string)
    requires |sep| > 0 && Free(p, sep[0])
    ensures Find(p + r, sep) == match Find(r, sep) case None => None case Some(i) => Some(|p| + i)
    decreases |p|
  {
    if |p| == 0 {
      assert p + r == r;
    } else {
      var s := p + r;
      assert s[1..] == p[1..] + r;
      FindAfterFree(p[1..], r, sep);
      if |s| >= |sep| {
        assert s[..|sep|][0] == p[0];
        assert s[..|sep|] != sep;
        assert Find(s, sep) == match Find(s[1..], sep) case None => None case Some(k) => Some(k + 1);
      } else {
        assert Find(r, sep).None?;
      }
    }
  }

  /** Python sep.join then s.split(sep) gives the list back, when no item holds sep's first character. */
  lemma {:induction false} SplitJoin(xs: seq<string>, sep: string)
    requires |sep| > 0 && |xs| > 0
    requires forall k :: 0 <= k < |xs| ==> Free(xs[k], sep[0])
    ensures Split(Join(xs, sep), sep) == xs
    decreases |xs|
  {
    if |xs| == 1 {
      FindAfterFree(xs[0], "", sep);
      assert xs[0] + "" == xs[0];
    } else {
      var rest := Join(xs[1..], sep);
      assert Join(xs, sep) == xs[0] + (sep + rest);
      FindAfterFree(xs[0], sep + rest, sep);
      assert (sep + rest)[..|sep|] == sep;
      var s := Join(xs, sep);
      assert s[..|xs[0]|] == xs[0];
      assert s[|xs[0]| + |sep|..] == rest;
      SplitJoin(xs[1..], sep);
      assert [xs[0]] + xs[1..] == xs;
    }
  }

  /** Joining n items without sep's first character leaves exactly n - 1 separators. */
  lemma SeparatorCount(xs: seq<string>, sep: string)
    requires |sep| > 0 && |xs| > 0
    requires forall k :: 0 <= k < |xs| ==> Free(xs[k], sep[0])
    ensures Count(Join(xs, sep), sep) == |xs| - 1
  {
    SplitJoin(xs, sep);
    SplitCount(Join(xs, sep), sep);
  }

  /** Every string occurs in itself at index 0. */
  lemma ContainsAtSelf(s: string)
    ensures ContainsAt(s, s, 0)
  {
    assert s[0..|s|] == s;
  }

  /** ContainsAt survives putting text in front of the string searched. */
  lemma ContainsAtLeft(a: string, s: string, t: string, i: nat)
    requires ContainsAt(s, t, i)
    ensures ContainsAt(a + s, t, |a| + i)
  {
    assert (a + s)[|a| + i..|a| + i + |t|] == s[i..i + |t|];
  }

  /** ContainsAt survives putting text after the string searched. */
  lemma ContainsAtRight(s: string, b: string, t: string, i: nat)
    requires ContainsAt(s, t, i)
    ensures ContainsAt(s + b, t, i)
  {
    assert (s + b)[i..i + |t|] == s[i..i + |t|];
  }

  /** ContainsAt survives putting text in front of, or after, the string searched. */
  lemma ContainsAtShift(a: string, s: string, b: string, t: string, i: nat)
    requires ContainsAt(s, t, i)
    ensures ContainsAt(a + s + b, t, |a| + i)
  {
    assert (a + s + b)[|a| + i..|a| + i + |t|] == s[i..i + |t|];
  }

  /** Each item sits in Join(xs, sep) at JoinOffset, and lies there in full. */
  lemma {:induction false} JoinAt(xs: seq<string>, sep: string, i: nat)
    requires i < |xs|
    ensures ContainsAt(Join(xs, sep), xs[i], JoinOffset(xs, sep, i))
    decreases |xs|
  {
    if |xs| == 1 {
      assert Join(xs, sep)[0..|xs[0]|] == xs[0];
    } else if i == 0 {
      assert Join(xs, sep)[0..|xs[0]|] == xs[0];
    } else {
      JoinAt(xs[1..], sep, i - 1);
      ContainsAtShift(xs[0] + sep, Join(xs[1..], sep), "", xs[i], JoinOffset(xs[1..], sep, i - 1));
      assert xs[0] + sep + Join(xs[1..], sep) + "" == Join(xs, sep);
    }
  }

  /** Items keep their order in Join: item i ends, and a separator follows, before item j starts. */
  lemma {:induction false} JoinOrder(xs: seq<string>, sep: string, i: nat, j: nat)
    requires i < j < |xs|
    ensures JoinOffset(xs, sep, i) + |xs[i]| + |sep| <= JoinOffset(xs, sep, j)
    decreases |xs|
  {
    if i > 0 {
      JoinOrder(xs[1..], sep, i - 1, j - 1);
    }
  }

  /** Consecutive items are exactly one separator apart, and the separator lies between them. */
  lemma {:induction false} JoinNext(xs: seq<string>, sep: string, i: nat)
    requires i + 1 < |xs|
    ensures JoinOffset(xs, sep, i + 1) == JoinOffset(xs, sep, i) + |xs[i]| + |sep|
    ensures ContainsAt(Join(xs, sep), sep, JoinOffset(xs, sep, i) + |xs[i]|)
    decreases |xs|
  {
    var rest := Join(xs[1..], sep);
    assert Join(xs, sep) == xs[0] + sep + rest;
    if i == 0 {
      assert Join(xs, sep)[|xs[0]|..|xs[0]| + |sep|] == sep;
    } else {
      JoinNext(xs[1..], sep, i - 1);
      ContainsAtLeft(xs[0] + sep, rest, sep, JoinOffset(xs[1..], sep, i - 1) + |xs[i]|);
    }
  }

  /** Join of a list with one more item at its end. */
  lemma {:induction false} JoinSnoc(xs: seq<string>, x: string, sep: string)
    requires |xs| > 0
    ensures Join(xs + [x], sep) == Join(xs, sep) + sep + x
    decreases |xs|
  {
    if |xs| == 1 {
      assert (xs + [x])[1..] == [x];
    } else {
      assert (xs + [x])[1..] == xs[1..] + [x];
      JoinSnoc(xs[1..], x, sep);
    }
  }
}

/** The parts of Go's `strings`, `unicode` and `fmt` packages the core uses. */
module GoStrings {
  import opened Wrappers

  /** The characters `unicode.IsSpace` accepts: the Latin-1 spaces plus Unicode's White_Space set. */
  const Spaces: set<char> := {
    ' ', '\t', '\n', '\U{000B}', '\U{000C}', '\r', '\U{0085}', '\U{00A0}', '\U{1680}',
    '\U{2000}', '\U{2001}', '\U{2002}', '\U{2003}', '\U{2004}', '\U{2005}', '\U{2006}',
    '\U{2007}', '\U{2008}', '\U{2009}', '\U{200A}',
    '\U{2028}', '\U{2029}', '\U{202F}', '\U{205F}', '\U{3000}'}

  /** `unicode.IsSpace`. */
  predicate IsSpace(c: char)
  {
    c in Spaces
  }

  predicate AllSpace(s: string)
  {
    forall k | 0 <= k < |s| :: IsSpace(s[k])
  }

  /** How many spaces `s` starts with. */
  function LeadingSpaces(s: string): (n: nat)
    ensures n <= |s|
  {
    if s != [] && IsSpace(s[0]) then 1 + LeadingSpaces(s[1..]) else 0
  }

  /** Where the trailing spaces of `s` start. */
  function TrailingStart(s: string): (n: nat)
    ensures n <= |s|
  {
    if s != [] && IsSpace(s[|s| - 1]) then TrailingStart(s[..|s| - 1]) else |s|
  }

  /** The leading spaces are spaces, and the character after them is not. */
  lemma {:induction false} LeadingSpacesSpec(s: string)
    ensures AllSpace(s[..LeadingSpaces(s)])
    ensures LeadingSpaces(s) < |s| ==> !IsSpace(s[LeadingSpaces(s)])
  {
    if s != [] && IsSpace(s[0]) {
      LeadingSpacesSpec(s[1..]);
      var n := LeadingSpaces(s);
      assert forall k | 1 <= k < n :: s[..n][k] == s[1..][..n - 1][k - 1];
    }
  }

  /** The trailing spaces are spaces, and the character before them is not. */
  lemma {:induction false} TrailingStartSpec(s: string)
    ensures AllSpace(s[TrailingStart(s)..])
    ensures TrailingStart(s) > 0 ==> !IsSpace(s[TrailingStart(s) - 1])
  {
    if s != [] && IsSpace(s[|s| - 1]) {
      TrailingStartSpec(s[..|s| - 1]);
      var n := TrailingStart(s);
      assert forall k | n <= k < |s| - 1 :: s[k] == s[..|s| - 1][k];
    }
  }

  /** `strings.TrimLeftFunc(s, unicode.IsSpace)`: drops the leading spaces only. */
  function TrimLeft(s: string): string
  {
    s[LeadingSpaces(s)..]
  }

  /** `strings.TrimRightFunc(s, unicode.IsSpace)`: drops the trailing spaces only. */
  function TrimRight(s: string): string
  {
    s[..TrailingStart(s)]
  }

  /** `strings.TrimSpace`. */
  function TrimSpace(s: string): string
  {
    TrimRight(TrimLeft(s))
  }

  /** A trimmed string neither starts nor ends with a space. */
  lemma TrimSpaceEnds(s: string)
    ensures var r := TrimSpace(s);
            r == [] || (!IsSpace(r[0]) && !IsSpace(r[|r| - 1]))
  {
    var l := TrimLeft(s);
    LeadingSpacesSpec(s);
    TrailingStartSpec(l);
    if TrailingStart(l) > 0 {
      assert l[0] == s[LeadingSpaces(s)];
    }
  }

  /** A string of spaces has nothing but leading spaces. */
  lemma {:induction false} LeadingAllSpace(s: string)
    requires AllSpace(s)
    ensures LeadingSpaces(s) == |s|
  {
    if s != [] {
      LeadingAllSpace(s[1..]);
    }
  }

  /** The trailing spaces start after the last non-space. */
  lemma {:induction false} TrailingAfter(s: string, k: nat)
    requires k < |s| && !IsSpace(s[k])
    ensures k < TrailingStart(s)
  {
    if IsSpace(s[|s| - 1]) {
      TrailingAfter(s[..|s| - 1], k);
    }
  }

  /** A string is trimmed away completely iff it is whitespace only. */
  lemma TrimSpaceEmptyIff(s: string)
    ensures TrimSpace(s) == [] <==> AllSpace(s)
  {
    var n := LeadingSpaces(s);
    var l := TrimLeft(s);
    LeadingSpacesSpec(s);
    if AllSpace(s) {
      LeadingAllSpace(s);
    }
    if TrimSpace(s) == [] {
      TrailingStartSpec(l);
      assert l[0..] == l;
      assert s == s[..n] + l;
    }
  }

  /** Trimming a trimmed string changes nothing. */
  lemma TrimSpaceIdempotent(s: string)
    ensures TrimSpace(TrimSpace(s)) == TrimSpace(s)
  {
    var r := TrimSpace(s);
    TrimSpaceEnds(s);
    assert LeadingSpaces(r) == 0;
    assert TrimLeft(r) == r;
    assert TrailingStart(r) == |r|;
  }

  /** Trimming only removes characters: a character absent from `s` is absent from its trim. */
  lemma TrimSpaceKeepsAbsent(s: string, c: char)
    requires c !in s
    ensures c !in TrimSpace(s)
  {
    var l := TrimLeft(s);
    assert forall k | 0 <= k < |l| :: l[k] == s[LeadingSpaces(s) + k];
    var r := TrimRight(l);
    assert forall k | 0 <= k < |r| :: r[k] == l[k];
  }

  /** Leading spaces in front of a string add to its leading spaces. */
  lemma {:induction false} LeadingSpacesSkip(p: string, rest: string)
    requires AllSpace(p)
    ensures LeadingSpaces(p + rest) == |p| + LeadingSpaces(rest)
  {
    if p != [] {
      assert (p + rest)[1..] == p[1..] + rest;
      LeadingSpacesSkip(p[1..], rest);
    } else {
      assert p + rest == rest;
    }
  }

  /** Trailing spaces behind a string do not move where its trailing spaces start. */
  lemma {:induction false} TrailingStartSkip(rest: string, p: string)
    requires AllSpace(p)
    ensures TrailingStart(rest + p) == TrailingStart(rest)
  {
    if p != [] {
      assert (rest + p)[..|rest + p| - 1] == rest + p[..|p| - 1];
      TrailingStartSkip(rest, p[..|p| - 1]);
    } else {
      assert rest + p == rest;
    }
  }

  /** Trimming a string padded with spaces gives the string back. */
  lemma TrimSpaceWrapped(pre: string, a: string, post: string)
    requires AllSpace(pre) && AllSpace(post)
    requires a != [] && !IsSpace(a[0]) && !IsSpace(a[|a| - 1])
    ensures TrimSpace(pre + a + post) == a
  {
    var s := pre + a + post;
    assert s == pre + (a + post);
    LeadingSpacesSkip(pre, a + post);
    assert LeadingSpaces(a + post) == 0;
    assert TrimLeft(s) == a + post;
    TrailingStartSkip(a, post);
  }

  /** A string that starts with a non-space keeps its first character. */
  lemma TrimSpaceKeepsHead(s: string)
    requires s != [] && !IsSpace(s[0])
    ensures TrimSpace(s) != [] && TrimSpace(s)[0] == s[0]
  {
    assert TrimLeft(s) == s;
    TrailingAfter(s, 0);
  }

  /** The index of the first `c` in `s` (`strings.IndexByte`), if any. */
  function IndexOf(s: string, c: char): (r: Option<nat>)
    ensures r.None? ==> c !in s
    ensures r.Some? ==> r.value < |s| && s[r.value] == c && c !in s[..r.value]
  {
    if s == [] then None
    else if s[0] == c then Some(0)
    else
      match IndexOf(s[1..], c)
      case None => None
      case Some(i) =>
        assert s[..i + 1] == [s[0]] + s[1..][..i];
        Some(i + 1)
  }

  /** `strings.Split(s, string(sep))`: the pieces between the separators. */
  function Split(s: string, sep: char): (parts: seq<string>)
    ensures |parts| >= 1
    ensures forall k | 0 <= k < |parts| :: sep !in parts[k]
    decreases |s|
  {
    match IndexOf(s, sep)
    case None => [s]
    case Some(i) => [s[..i]] + Split(s[i + 1..], sep)
  }

  /** `strings.Join`. */
  function Join(parts: seq<string>, sep: string): string
  {
    if parts == [] then ""
    else if |parts| == 1 then parts[0]
    else parts[0] + sep + Join(parts[1..], sep)
  }

  /** Joining the pieces of a split with the separator gives the string back. */
  lemma {:induction false} JoinSplit(s: string, sep: char)
    ensures Join(Split(s, sep), [sep]) == s
    decreases |s|
  {
    match IndexOf(s, sep)
    case None =>
    case Some(i) =>
      var rest := Split(s[i + 1..], sep);
      JoinSplit(s[i + 1..], sep);
      assert Split(s, sep) == [s[..i]] + rest;
      assert s == s[..i] + [sep] + s[i + 1..];
  }

  /** In `a + [c] + b` with no `c` in `a`, the first `c` is right after `a`. */
  lemma IndexOfFirst(a: string, c: char, b: string)
    requires c !in a
    ensures IndexOf(a + [c] + b, c) == Some(|a|)
  {
    var s := a + [c] + b;
    assert s[|a|] == c;
    assert s[..|a|] == a;
  }

  /** Splitting a join of separator-free pieces gives the pieces back. */
  lemma {:induction false} SplitJoin(parts: seq<string>, sep: char)
    requires |parts| >= 1
    requires forall k | 0 <= k < |parts| :: sep !in parts[k]
    ensures Split(Join(parts, [sep]), sep) == parts
    decreases |parts|
  {
    if |parts| == 1 {
      assert IndexOf(parts[0], sep) == None;
    } else {
      var rest := Join(parts[1..], [sep]);
      var s := parts[0] + [sep] + rest;
      assert Join(parts, [sep]) == s;
      IndexOfFirst(parts[0], sep, rest);
      assert s[..|parts[0]|] == parts[0];
      assert s[|parts[0]| + 1..] == rest;
      SplitJoin(parts[1..], sep);
      assert parts == [parts[0]] + parts[1..];
    }
  }

  /** A character property that holds of the separator and of every piece holds of their join. */
  lemma {:induction false} JoinKeeps(parts: seq<string>, sep: char, p: char -> bool)
    requires p(sep)
    requires forall k, i | 0 <= k < |parts| && 0 <= i < |parts[k]| :: p(parts[k][i])
    ensures forall i | 0 <= i < |Join(parts, [sep])| :: p(Join(parts, [sep])[i])
    decreases |parts|
  {
    if |parts| >= 2 {
      JoinKeeps(parts[1..], sep, p);
      var rest := Join(parts[1..], [sep]);
      var s := parts[0] + [sep] + rest;
      assert Join(parts, [sep]) == s;
      forall i | 0 <= i < |s|
        ensures p(s[i])
      {
        if i < |parts[0]| {
          assert s[i] == parts[0][i];
        } else if i > |parts[0]| {
          assert s[i] == rest[i - |parts[0]| - 1];
        }
      }
    } else if |parts| == 1 {
      assert Join(parts, [sep]) == parts[0];
      forall i | 0 <= i < |parts[0]|
        ensures p(parts[0][i])
      {
      }
    }
  }

  /** `fmt`'s `%v` of a `[]string`: the elements between brackets, space separated. */
  function FormatList(xs: seq<string>): string
  {
    "[" + Join(xs, " ") + "]"
  }
}

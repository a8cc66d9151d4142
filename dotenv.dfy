/**
 * The `.env` file parser: lines are trimmed, blank and comment lines are
 * dropped, a trailing comment is cut by a small quote- and escape-aware
 * state machine, and each remaining line is split into a key and a value.
 *
 * Strings are sequences of characters, so the byte offsets Go's `range`
 * and slicing use are character positions here.
 */
module DotEnv {
  import opened Wrappers
  import opened GoStrings

  /** `isLineIgnorable`: an empty line or one that starts with `#`. */
  function IsLineIgnorable(line: string): (b: bool)
    ensures b <==> line == [] || line[0] == '#'
  {
    line == "" || (|line| >= 1 && line[..1] == "#")
  }

  lemma IgnorableExamples()
    ensures IsLineIgnorable("") && IsLineIgnorable("#") && IsLineIgnorable("# comment")
    ensures !IsLineIgnorable("key=value") && !IsLineIgnorable(" key = value ")
    ensures !IsLineIgnorable("key = # comment")
  {
  }

  /*
   * The comment scanner. `trimComment` keeps a `state` and the state before
   * the current character, `lastState`; its four states and the escape's
   * memory of which quote it sits in make five modes.
   */

  datatype Mode = Free | Single | Double | EscapedSingle | EscapedDouble

  /** One character of the scan, when it is not a comment start. */
  function Next(m: Mode, c: char): Mode
  {
    match m
    case Free => if c == '\'' then Single else if c == '"' then Double else Free
    case Single => if c == '\'' then Free else if c == '\\' then EscapedSingle else Single
    case Double => if c == '"' then Free else if c == '\\' then EscapedDouble else Double
    case EscapedSingle => Single
    case EscapedDouble => Double
  }

  /** The mode after scanning `s` from mode `m`. */
  function Run(m: Mode, s: string): Mode
    decreases |s|
  {
    if s == [] then m else Run(Next(m, s[0]), s[1..])
  }

  lemma {:induction false} RunSnoc(m: Mode, s: string, c: char)
    ensures Run(m, s + [c]) == Next(Run(m, s), c)
    decreases |s|
  {
    if s != [] {
      assert (s + [c])[1..] == s[1..] + [c];
      RunSnoc(Next(m, s[0]), s[1..], c);
    }
  }

  /** A `#` met outside quotes: where the comment starts. */
  predicate IsCommentStart(line: string, i: nat)
  {
    i < |line| && line[i] == '#' && Run(Free, line[..i]) == Free
  }

  /** The scan from mode `m`: the number of characters before the first `#` met in mode Free. */
  function Cut(s: string, m: Mode): (n: nat)
    ensures n <= |s|
    decreases |s|
  {
    if s == [] then 0
    else if m == Free && s[0] == '#' then 0
    else 1 + Cut(s[1..], Next(m, s[0]))
  }

  /** The scan stops at a `#` met in mode Free, and at no earlier one. */
  lemma {:induction false} CutStops(s: string, m: Mode)
    ensures Cut(s, m) < |s| ==> s[Cut(s, m)] == '#' && Run(m, s[..Cut(s, m)]) == Free
    ensures forall j | 0 <= j < Cut(s, m) :: !(s[j] == '#' && Run(m, s[..j]) == Free)
    decreases |s|
  {
    if s != [] && !(m == Free && s[0] == '#') {
      var m' := Next(m, s[0]);
      CutStops(s[1..], m');
      var n := Cut(s, m);
      assert n == 1 + Cut(s[1..], m');
      assert s[..n][1..] == s[1..][..n - 1];
      forall j | 0 <= j < n
        ensures !(s[j] == '#' && Run(m, s[..j]) == Free)
      {
        if j > 0 {
          assert s[..j][1..] == s[1..][..j - 1];
          assert s[j] == s[1..][j - 1];
        }
      }
    }
  }

  /** Where `trimComment` cuts the line: at its first comment start, or at its end. */
  function CommentCut(line: string): (cut: nat)
    ensures cut <= |line|
  {
    Cut(line, Free)
  }

  /** The cut is a comment start or the end, and nothing before it starts a comment. */
  lemma CommentCutSpec(line: string)
    ensures CommentCut(line) < |line| ==> IsCommentStart(line, CommentCut(line))
    ensures forall j | 0 <= j < CommentCut(line) :: !IsCommentStart(line, j)
  {
    CutStops(line, Free);
  }

  /** The first comment start, or the end, is the cut. */
  lemma CommentCutUnique(line: string, c: nat)
    requires c <= |line|
    requires c < |line| ==> IsCommentStart(line, c)
    requires forall j | 0 <= j < c :: !IsCommentStart(line, j)
    ensures c == CommentCut(line)
  {
    CommentCutSpec(line);
  }

  /** What `trimComment` gives: the part before the comment, trimmed. */
  function Uncommented(line: string): string
  {
    TrimSpace(line[..CommentCut(line)])
  }

  /** The Go variables `state` and `lastState` in mode `m`. */
  predicate Encodes(state: char, lastState: char, m: Mode)
  {
    match m
    case Free => state == ' '
    case Single => state == '\''
    case Double => state == '"'
    case EscapedSingle => state == '\\' && lastState == '\''
    case EscapedDouble => state == '\\' && lastState == '"'
  }

  /** `trimComment`. */
  method TrimComment(line: string) returns (r: string)
    ensures r == Uncommented(line)
  {
    var lastState, state := ' ', ' ';
    var cut := |line|;
    var i := 0;
    while i < |line|
      invariant 0 <= i <= |line|
      invariant Encodes(state, lastState, Run(Free, line[..i]))
      invariant forall j | 0 <= j < i :: !IsCommentStart(line, j)
    {
      var c := line[i];
      var tmp := state;
      if state == ' ' {
        if c == '#' {
          cut := i;
          break;
        } else if c == '\'' {
          state := '\'';
        } else if c == '"' {
          state := '"';
        }
      } else if state == '\\' {
        state := lastState;
      } else if state == '\'' {
        if c == '\'' {
          state := ' ';
        } else if c == '\\' {
          state := '\\';
        }
      } else if state == '"' {
        if c == '"' {
          state := ' ';
        } else if c == '\\' {
          state := '\\';
        }
      }
      lastState := tmp;
      RunSnoc(Free, line[..i], c);
      assert line[..i + 1] == line[..i] + [c];
      i := i + 1;
    }
    CommentCutUnique(line, cut);
    r := TrimSpace(line[..cut]);
  }

  /** Inside quotes a backslash makes the next character inert: a quote after it does not close. */
  lemma EscapeInert(p: string, q: char)
    requires Run(Free, p) == Single || Run(Free, p) == Double
    ensures Run(Free, p + ['\\', q]) == Run(Free, p)
  {
    RunSnoc(Free, p, '\\');
    RunSnoc(Free, p + ['\\'], q);
    assert p + ['\\'] + [q] == p + ['\\', q];
  }

  /** A line without `#` is only trimmed. */
  lemma NoHashOnlyTrims(line: string)
    requires '#' !in line
    ensures Uncommented(line) == TrimSpace(line)
  {
    CommentCutSpec(line);
    assert line[..|line|] == line;
  }

  /** A quoted `#` does not start a comment: after an opening quote the scan is no longer free. */
  lemma QuoteOpens(p: string, q: char)
    requires Run(Free, p) == Free && (q == '\'' || q == '"')
    ensures Run(Free, p + [q]) != Free
  {
    RunSnoc(Free, p, q);
  }

  /*
   * Cleaning the lines of a file.
   */

  /** What `cleanLines` makes of one line: nothing, or the line without its comment. */
  function CleanLine(line: string): Option<string>
  {
    var t := TrimSpace(line);
    if IsLineIgnorable(t) then None
    else
      var u := Uncommented(t);
      if u == "" then None else Some(u)
  }

  /** The cleaned lines, in input order. */
  function Cleaned(lines: seq<string>): (r: seq<string>)
    ensures |r| <= |lines|
  {
    if lines == [] then []
    else
      var front := Cleaned(lines[..|lines| - 1]);
      match CleanLine(lines[|lines| - 1])
      case None => front
      case Some(u) => front + [u]
  }

  /** A kept line is non-empty, trimmed and not a comment. */
  lemma CleanLineShape(line: string)
    requires CleanLine(line).Some?
    ensures var u := CleanLine(line).value;
            u != [] && TrimSpace(u) == u && u[0] != '#'
  {
    var t := TrimSpace(line);
    var cut := CommentCut(t);
    CommentCutSpec(t);
    assert !IsCommentStart(t, 0) by {
      assert t[0] != '#';
    }
    assert cut > 0;
    var p := t[..cut];
    TrimSpaceEnds(line);
    assert p[0] == t[0];
    TrimSpaceKeepsHead(p);
    TrimSpaceIdempotent(p);
  }

  /** Every line `cleanLines` returns is non-empty, trimmed and not a comment. */
  lemma {:induction false} CleanedShape(lines: seq<string>)
    ensures forall k | 0 <= k < |Cleaned(lines)| ::
              Cleaned(lines)[k] != [] && TrimSpace(Cleaned(lines)[k]) == Cleaned(lines)[k] && Cleaned(lines)[k][0] != '#'
  {
    if lines != [] {
      CleanedShape(lines[..|lines| - 1]);
      var last := lines[|lines| - 1];
      if CleanLine(last).Some? {
        CleanLineShape(last);
      }
    }
  }

  /** Cleaning works line by line and keeps the order: cleaning two files' lines is cleaning each. */
  lemma {:induction false} CleanedAppend(a: seq<string>, b: seq<string>)
    ensures Cleaned(a + b) == Cleaned(a) + Cleaned(b)
    decreases |b|
  {
    if b == [] {
      assert a + b == a;
    } else {
      var b' := b[..|b| - 1];
      CleanedAppend(a, b');
      assert (a + b)[..|a + b| - 1] == a + b';
      assert (a + b)[|a + b| - 1] == b[|b| - 1];
    }
  }

  /** `cleanLines`. */
  method CleanLines(lines: seq<string>) returns (cleaned: seq<string>)
    ensures cleaned == Cleaned(lines)
  {
    cleaned := [];
    for i := 0 to |lines|
      invariant cleaned == Cleaned(lines[..i])
    {
      assert lines[..i + 1][..i] == lines[..i];
      var line := TrimSpace(lines[i]);
      if IsLineIgnorable(line) {
        continue;
      }
      line := TrimComment(line);
      if line != "" {
        cleaned := cleaned + [line];
      }
    }
    assert lines[..|lines|] == lines;
  }

  /*
   * Splitting a line.
   */

  predicate IsQuote(c: char)
  {
    c == '\'' || c == '"'
  }

  /** One leading quote and one trailing quote come off, of either kind and independently. */
  function Unquote(v: string): (r: string)
    ensures |v| - 2 <= |r| <= |v|
  {
    var a := if v != [] && IsQuote(v[0]) then v[1..] else v;
    if a != [] && IsQuote(a[|a| - 1]) then a[..|a| - 1] else a
  }

  /** A value between two quotes comes out whole, inner quotes and spaces included. */
  lemma UnquoteWrapped(q1: char, s: string, q2: char)
    requires IsQuote(q1) && IsQuote(q2)
    ensures Unquote([q1] + s + [q2]) == s
  {
    assert ([q1] + s + [q2])[1..] == s + [q2];
    assert (s + [q2])[..|s|] == s;
  }

  /** A value with no quote at either end is kept as is. */
  lemma UnquotePlain(s: string)
    requires s == [] || (!IsQuote(s[0]) && !IsQuote(s[|s| - 1]))
    ensures Unquote(s) == s
  {
  }

  /** A lone quote is the leading one only, so it is stripped once. */
  lemma UnquoteLoneQuote()
    ensures Unquote("'") == "" && Unquote("\"") == ""
  {
  }

  function InvalidLine(line: string): string
  {
    "invalid line: " + line
  }

  /**
   * `splitKeyValue`: the key is the trimmed text before the first `=`, the
   * value the trimmed text after it without its outer quotes. No `=` or an
   * empty key is an error naming the line.
   */
  function SplitKeyValue(line: string): (r: Result<(string, string), string>)
    ensures r.Failure? ==> r.error == InvalidLine(line)
  {
    match IndexOf(line, '=')
    case None => Failure(InvalidLine(line))
    case Some(i) =>
      var key := TrimSpace(line[..i]);
      var value := Unquote(TrimSpace(line[i + 1..]));
      if key == "" then Failure(InvalidLine(line))
      else Success((key, value))
  }

  /** Splitting fails iff there is no `=` or nothing but spaces before the first one. */
  lemma SplitFailsIff(line: string)
    ensures SplitKeyValue(line).Failure? <==> '=' !in line || TrimSpace(line[..IndexOf(line, '=').value]) == ""
  {
  }

  /** A key is never empty, holds no `=` and has no outer spaces. */
  lemma SplitKeyShape(line: string)
    requires SplitKeyValue(line).Success?
    ensures var key := SplitKeyValue(line).value.0;
            key != [] && '=' !in key && TrimSpace(key) == key
  {
    var i := IndexOf(line, '=').value;
    TrimSpaceIdempotent(line[..i]);
    TrimSpaceKeepsAbsent(line[..i], '=');
  }

  /*
   * Parsing a file.
   */

  /** A line splitter: a key and a value, or an error text. */
  type Splitter = string -> Result<(string, string), string>

  /**
   * The map the lines build when each is split by `split` and its pair
   * inserted, later pairs overwriting earlier ones; or the error of the
   * first line that does not split.
   */
  function Build(lines: seq<string>, split: Splitter): Result<map<string, string>, string>
  {
    if lines == [] then Success(map[])
    else
      match Build(lines[..|lines| - 1], split)
      case Failure(e) => Failure(e)
      case Success(env) =>
        match split(lines[|lines| - 1])
        case Failure(e) => Failure(e)
        case Success(kv) => Success(env[kv.0 := kv.1])
  }

  /** Building fails iff some line does not split, and then with the first such line's error. */
  lemma {:induction false} BuildFailure(lines: seq<string>, split: Splitter)
    ensures Build(lines, split).Failure? <==> exists k | 0 <= k < |lines| :: split(lines[k]).Failure?
    ensures Build(lines, split).Failure? ==>
              exists k | 0 <= k < |lines| :: split(lines[k]) == Failure(Build(lines, split).error) &&
                                             forall j | 0 <= j < k :: split(lines[j]).Success?
  {
    if lines != [] {
      var front := lines[..|lines| - 1];
      BuildFailure(front, split);
      assert forall k | 0 <= k < |front| :: front[k] == lines[k];
      if Build(front, split).Failure? {
        var k :| 0 <= k < |front| && split(front[k]) == Failure(Build(front, split).error) &&
                 forall j | 0 <= j < k :: split(front[j]).Success?;
        assert lines[k] == front[k];
      } else if split(lines[|lines| - 1]).Failure? {
        assert forall j | 0 <= j < |front| :: split(lines[j]).Success?;
      }
    }
  }

  /** A built map holds exactly the keys of its lines. */
  lemma {:induction false} BuildKeys(lines: seq<string>, key: string, split: Splitter)
    requires Build(lines, split).Success?
    ensures forall k | 0 <= k < |lines| :: split(lines[k]).Success?
    ensures key in Build(lines, split).value <==>
              exists k | 0 <= k < |lines| :: split(lines[k]).value.0 == key
  {
    BuildFailure(lines, split);
    if lines != [] {
      var front := lines[..|lines| - 1];
      BuildKeys(front, key, split);
      assert forall k | 0 <= k < |front| :: front[k] == lines[k];
    }
  }

  /**
   * Each key of a built map holds the value of the last line with that
   * key: later lines overwrite earlier ones.
   */
  lemma {:induction false} BuildLastWins(lines: seq<string>, key: string, split: Splitter)
    requires Build(lines, split).Success? && key in Build(lines, split).value
    ensures exists k | 0 <= k < |lines| :: split(lines[k]) == Success((key, Build(lines, split).value[key])) &&
                                           forall j | k < j < |lines| :: split(lines[j]).Success? && split(lines[j]).value.0 != key
  {
    var front := lines[..|lines| - 1];
    var last := |lines| - 1;
    var kv := split(lines[last]).value;
    assert Build(lines, split).value == Build(front, split).value[kv.0 := kv.1];
    if kv.0 == key {
      assert split(lines[last]) == Success((key, Build(lines, split).value[key]));
    } else {
      BuildLastWins(front, key, split);
      var k :| 0 <= k < |front| && split(front[k]) == Success((key, Build(front, split).value[key])) &&
               forall j | k < j < |front| :: split(front[j]).Success? && split(front[j]).value.0 != key;
      assert lines[k] == front[k];
      forall j | k < j < |lines|
        ensures split(lines[j]).Success? && split(lines[j]).value.0 != key
      {
        if j < last {
          assert lines[j] == front[j];
        }
      }
    }
  }

  /** Building one more line. */
  lemma BuildStep(lines: seq<string>, i: nat, split: Splitter)
    requires i < |lines| && Build(lines[..i], split).Success?
    ensures Build(lines[..i + 1], split) ==
              match split(lines[i])
              case Failure(e) => Failure(e)
              case Success(kv) => Success(Build(lines[..i], split).value[kv.0 := kv.1])
  {
    assert lines[..i + 1][..i] == lines[..i];
  }

  /** Once a prefix fails, the whole fails with the same error: nothing after the bad line is read. */
  lemma {:induction false} BuildFailureSticks(lines: seq<string>, i: nat, split: Splitter)
    requires i <= |lines| && Build(lines[..i], split).Failure?
    ensures Build(lines, split) == Build(lines[..i], split)
    decreases |lines| - i
  {
    if i < |lines| {
      var front := lines[..|lines| - 1];
      assert front[..i] == lines[..i];
      BuildFailureSticks(front, i, split);
    } else {
      assert lines[..i] == lines;
    }
  }

  /** The env file of the lines: `Build` with `splitKeyValue`. */
  function ParseLines(lines: seq<string>): Result<map<string, string>, string>
  {
    Build(lines, SplitKeyValue)
  }

  /** Parsing fails iff some line does not split, and then with "invalid line" and the first such line. */
  lemma ParseLinesFailure(lines: seq<string>)
    ensures ParseLines(lines).Failure? <==> exists k | 0 <= k < |lines| :: SplitKeyValue(lines[k]).Failure?
    ensures ParseLines(lines).Failure? ==>
              exists k | 0 <= k < |lines| :: ParseLines(lines).error == InvalidLine(lines[k]) &&
                                             SplitKeyValue(lines[k]).Failure? &&
                                             forall j | 0 <= j < k :: SplitKeyValue(lines[j]).Success?
  {
    BuildFailure(lines, SplitKeyValue);
  }

  /** `ParseEnvFile`: split at newlines, clean, and insert each line's pair, stopping at the first bad line. */
  method ParseEnvFile(content: string) returns (r: Result<map<string, string>, string>)
    ensures r == ParseLines(Cleaned(Split(content, '\n')))
  {
    var lines := CleanLines(Split(content, '\n'));
    var env: map<string, string> := map[];
    for i := 0 to |lines|
      invariant Build(lines[..i], SplitKeyValue) == Success(env)
    {
      var line := lines[i];
      BuildStep(lines, i, SplitKeyValue);
      var kv := SplitKeyValue(line);
      if kv.Failure? {
        BuildFailureSticks(lines, i + 1, SplitKeyValue);
        return Failure(kv.error);
      }
      env := env[kv.value.0 := kv.value.1];
    }
    assert lines[..|lines|] == lines;
    r := Success(env);
  }
}

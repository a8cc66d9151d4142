/**
 * What the `.env` line splitter makes of typical lines: a line splits at
 * its first `=`, spaces around key and value go, one pair of quotes
 * around the value goes, and the bad lines of the tests are refused with
 * their own message.
 */
module DotEnvLines {
  import opened Wrappers
  import opened GoStrings
  import opened DotEnv

  /**
   * A line splits at its first `=`: the key is the trimmed text before it,
   * the value the trimmed and unquoted text after it, and an empty key
   * makes the line bad.
   */
  lemma SplitAtFirstEquals(k: string, rest: string)
    requires '=' !in k
    ensures SplitKeyValue(k + "=" + rest) ==
              if TrimSpace(k) == "" then Failure(InvalidLine(k + "=" + rest))
              else Success((TrimSpace(k), Unquote(TrimSpace(rest))))
  {
    var line := k + "=" + rest;
    IndexOfFirst(k, '=', rest);
    assert line == k + ['='] + rest;
    assert line[..|k|] == k;
    assert line[|k| + 1..] == rest;
  }

  /** A string with no outer spaces trims to itself. */
  lemma TrimClean(s: string)
    requires s != [] && !IsSpace(s[0]) && !IsSpace(s[|s| - 1])
    ensures TrimSpace(s) == s
  {
    TrimSpaceWrapped("", s, "");
    assert "" + s + "" == s;
  }

  /** A key with no outer spaces, followed by spaces, trims to itself. */
  lemma TrimPadded(key: string, post: string)
    requires key != [] && !IsSpace(key[0]) && !IsSpace(key[|key| - 1])
    requires AllSpace(post)
    ensures TrimSpace(key + post) == key
  {
    TrimSpaceWrapped("", key, post);
    assert "" + key + post == key + post;
  }

  /** A quoted value trims to itself, quotes included, whatever spaces pad it. */
  lemma TrimQuoted(pre: string, value: string, post: string)
    requires AllSpace(pre) && AllSpace(post)
    ensures TrimSpace(pre + ("\"" + value + "\"") + post) == "\"" + value + "\""
  {
    TrimSpaceWrapped(pre, "\"" + value + "\"", post);
  }

  /** Unquoting a double-quoted value gives the value. */
  lemma UnquoteDouble(value: string)
    ensures Unquote("\"" + value + "\"") == value
  {
    UnquoteWrapped('"', value, '"');
    assert "\"" + value + "\"" == ['"'] + value + ['"'];
  }

  /** A line written as `key="value"` reads back as that key and value, whatever the value holds. */
  lemma SplitQuoted(key: string, value: string)
    requires key != [] && '=' !in key && !IsSpace(key[0]) && !IsSpace(key[|key| - 1])
    ensures SplitKeyValue(key + "=\"" + value + "\"") == Success((key, value))
  {
    var quoted := "\"" + value + "\"";
    assert key + "=\"" + value + "\"" == key + "=" + quoted;
    SplitAtFirstEquals(key, quoted);
    TrimClean(key);
    TrimSpaceWrapped("", quoted, "");
    assert "" + quoted + "" == quoted;
    UnquoteDouble(value);
  }

  /** Spaces around the `=` and outside the quotes go; spaces inside the quotes stay. */
  lemma SplitQuotedSpaced(key: string, value: string)
    requires key != [] && '=' !in key && !IsSpace(key[0]) && !IsSpace(key[|key| - 1])
    ensures SplitKeyValue(key + " = \"" + value + "\" ") == Success((key, value))
  {
    var rest := " " + ("\"" + value + "\"") + " ";
    assert key + " = \"" + value + "\" " == (key + " ") + "=" + rest;
    assert '=' !in key + " ";
    SplitAtFirstEquals(key + " ", rest);
    TrimPadded(key, " ");
    TrimQuoted(" ", value, " ");
    UnquoteDouble(value);
  }

  /** A line `key=value` with a plain value reads back as that key and value. */
  lemma SplitPlain(key: string, value: string)
    requires key != [] && '=' !in key && !IsSpace(key[0]) && !IsSpace(key[|key| - 1])
    requires value != [] && !IsSpace(value[0]) && !IsSpace(value[|value| - 1])
    requires !IsQuote(value[0]) && !IsQuote(value[|value| - 1])
    ensures SplitKeyValue(key + "=" + value) == Success((key, value))
  {
    SplitAtFirstEquals(key, value);
    TrimPadded(key, "");
    assert key + "" == key;
    TrimPadded(value, "");
    assert value + "" == value;
    UnquotePlain(value);
  }

  /** The examples of the tests: `key=value`, and `key = "value " ` keeps the inner space. */
  lemma SplitExamples()
    ensures SplitKeyValue("key=value") == Success(("key", "value"))
    ensures SplitKeyValue("key = \"value \" ") == Success(("key", "value "))
  {
    assert !IsSpace('k') && !IsSpace('y') && '=' !in "key";
    assert !IsSpace('v') && !IsSpace('e') && !IsQuote('v') && !IsQuote('e');
    assert "key" + "=" + "value" == "key=value";
    assert "key" + " = \"" + "value " + "\" " == "key = \"value \" ";
    SplitPlain("key", "value");
    SplitQuotedSpaced("key", "value ");
  }

  /** A line `key = ` has an empty value. */
  lemma SplitBlank(key: string)
    requires key != [] && '=' !in key && !IsSpace(key[0]) && !IsSpace(key[|key| - 1])
    ensures SplitKeyValue(key + " = ") == Success((key, ""))
  {
    assert '=' !in key + " ";
    SplitAtFirstEquals(key + " ", " ");
    TrimPadded(key, " ");
    TrimSpaceEmptyIff(" ");
    assert key + " = " == (key + " ") + "=" + " ";
  }

  /** The test example `key = `. */
  lemma SplitEmptyValue()
    ensures SplitKeyValue("key = ") == Success(("key", ""))
  {
    assert !IsSpace('k') && !IsSpace('y') && '=' !in "key";
    assert "key" + " = " == "key = ";
    SplitBlank("key");
  }

  /** No `=` is a bad line: `key`. */
  lemma SplitNoEquals()
    ensures SplitKeyValue("key") == Failure("invalid line: key")
  {
    assert IndexOf("key", '=') == None;
    assert SplitKeyValue("key") == Failure(InvalidLine("key"));
    assert "invalid line: " + "key" == "invalid line: key";
  }

  /** Nothing before the `=` is a bad line: `=value`. */
  lemma SplitNoKey()
    ensures SplitKeyValue("=value") == Failure("invalid line: =value")
  {
    SplitAtFirstEquals("", "value");
    assert "" + "=" + "value" == "=value";
    assert "invalid line: " + "=value" == "invalid line: =value";
  }
}

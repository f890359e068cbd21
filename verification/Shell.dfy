/**
 Printing an argument list as one shell command line, against the shell's own rules for reading words.

 The reader below follows sections 2.2.1 to 2.2.3 and 2.3 of POSIX.1-2017 XCU. It gives up on a text
 that is anything but a list of literal words: operators, a second line, expansions and patterns.
 */
module Shell {
  import opened Basics

  // ---------------------------------------------------------------- reading words

  const OPERATORS := "&;|<>()\n"
  const EXPANSIONS := "$`*?["

  function Emit(word: Option<string>, rest: Option<seq<string>>): Option<seq<string>> {
    match (word, rest)
    case (_, None) => None
    case (None, _) => rest
    case (Some(w), Some(ws)) => Some([w] + ws)
  }

  function Extend(word: Option<string>, c: char): Option<string> {
    Some(if word.Some? then word.value + [c] else [c])
  }

  /** Outside quotes, with the word begun so far. */
  function Words(s: string, word: Option<string>): Option<seq<string>>
    decreases |s|
  {
    if s == "" then Emit(word, Some([]))
    else
      var c, rest := s[0], s[1..];
      if c == ' ' || c == '\t' then Emit(word, Words(rest, None))
      else if c == '\'' then Quoted(rest, if word.Some? then word.value else "")
      else if c == '"' then DoubleQuoted(rest, if word.Some? then word.value else "")
      else if c == '\\' then
        if rest == "" then None
        else if rest[0] == '\n' then Words(rest[1..], word)
        else Words(rest[1..], Extend(word, rest[0]))
      else if c in OPERATORS || c in EXPANSIONS then None
      else if word.None? && c == '#' then (if '\n' in rest then None else Some([]))
      else if word.None? && c == '~' then None
      else Words(rest, Extend(word, c))
  }

  /** Inside single quotes. */
  function Quoted(s: string, word: string): Option<seq<string>>
    decreases |s|
  {
    if s == "" then None
    else if s[0] == '\'' then Words(s[1..], Some(word))
    else Quoted(s[1..], word + [s[0]])
  }

  /** Inside double quotes. */
  function DoubleQuoted(s: string, word: string): Option<seq<string>>
    decreases |s|
  {
    if s == "" then None
    else if s[0] == '"' then Words(s[1..], Some(word))
    else if s[0] == '$' || s[0] == '`' then None
    else if s[0] == '\\' && |s| > 1 && s[1] == '\n' then DoubleQuoted(s[2..], word)
    else if s[0] == '\\' && |s| > 1 && s[1] in "$`\"\\" then DoubleQuoted(s[2..], word + [s[1]])
    else DoubleQuoted(s[1..], word + [s[0]])
  }

  function Lex(line: string): Option<seq<string>> {
    Words(line, None)
  }

  // ---------------------------------------------------------------- printing them

  const SPECIAL := " \t\n'\"\\$`#?*&;|<>(){}[]!~"

  predicate ContainsAny(a: string, chars: string) {
    exists c :: c in a && c in chars
  }

  /** Every quote closes the quoting, stands escaped by itself and opens the quoting again. */
  function EscapeQuotes(a: string): string {
    if a == "" then "" else (if a[0] == '\'' then "'\\''" else [a[0]]) + EscapeQuotes(a[1..])
  }

  function Shown(a: string): string {
    if a != "" && !ContainsAny(a, SPECIAL) then a else "'" + EscapeQuotes(a) + "'"
  }

  function Join(parts: seq<string>): string {
    if parts == [] then "" else if |parts| == 1 then parts[0] else parts[0] + " " + Join(parts[1..])
  }

  function ShownAll(args: seq<string>): seq<string> {
    seq(|args|, i requires 0 <= i < |args| => Shown(args[i]))
  }

  method ShellJoin(args: seq<string>) returns (line: string)
    ensures line == Join(ShownAll(args))
    ensures Lex(line) == Some(args)
  {
    var q := new string[|args|];
    for i := 0 to |args|
      invariant forall k | 0 <= k < i :: q[k] == Shown(args[k])
    {
      var a := args[i];
      if a != "" && !ContainsAny(a, SPECIAL) {
        q[i] := a;
        continue;
      }
      q[i] := "'" + EscapeQuotes(a) + "'";
    }
    assert q[..] == ShownAll(args);
    LexUndoesShellJoin(args);
    return Join(q[..]);
  }

  /** What means nothing to a shell is printed as it is; everything else, and the empty argument, is quoted. */
  lemma ShownAsItIsIff(a: string)
    ensures Shown(a) == a <==> a != "" && forall c | c in a :: c !in " \t\n'\"\\$`#?*&;|<>(){}[]!~"
  {
    QuotedIsLonger(a);
  }

  lemma {:induction false} QuotedIsLonger(a: string)
    ensures |EscapeQuotes(a)| >= |a|
  {
    if a != "" { QuotedIsLonger(a[1..]); }
  }

  // ---------------------------------------------------------------- the round trip

  predicate Plain(a: string) {
    forall c | c in a :: c !in SPECIAL
  }

  lemma {:induction false} ReadPlain(a: string, rest: string, word: Option<string>)
    requires Plain(a) && a != ""
    ensures Words(a + rest, word) == Words(rest, Some((if word.Some? then word.value else "") + a))
    decreases a
  {
    assert a[0] in a && a[0] !in SPECIAL;
    assert (a + rest)[1..] == a[1..] + rest;
    var w := (if word.Some? then word.value else "") + [a[0]];
    assert (if word.Some? then word.value else "") + a == w + a[1..];
    PlainChar(a[0]);
    assert "" + [a[0]] == [a[0]];
    assert Words(a + rest, word) == Words(a[1..] + rest, Some(w));
    if |a| > 1 {
      ReadPlain(a[1..], rest, Some(w));
    } else {
      assert a[1..] + rest == rest && w + a[1..] == w;
    }
  }

  lemma PlainChar(c: char)
    requires c !in SPECIAL
    ensures c !in OPERATORS && c !in EXPANSIONS
    ensures c != ' ' && c != '\t' && c != '\'' && c != '"' && c != '\\' && c != '#' && c != '~'
  {
    var s := SPECIAL;
    assert s[0] == ' ' && s[1] == '\t' && s[2] == '\n' && s[3] == '\'' && s[4] == '"' && s[5] == '\\';
    assert s[6] == '$' && s[7] == '`' && s[8] == '#' && s[9] == '?' && s[10] == '*' && s[11] == '&';
    assert s[12] == ';' && s[13] == '|' && s[14] == '<' && s[15] == '>' && s[16] == '(' && s[17] == ')';
    assert s[20] == '[' && s[23] == '~';
  }

  lemma {:induction false} ReadQuoted(a: string, rest: string, word: string)
    ensures Quoted(EscapeQuotes(a) + "'" + rest, word) == Words(rest, Some(word + a))
    decreases a
  {
    if a == "" {
      assert ("'" + rest)[1..] == rest && word + a == word;
    } else {
      ReadFirstQuoted(a, rest, word);
      ReadQuoted(a[1..], rest, word + [a[0]]);
      assert word + [a[0]] + a[1..] == word + a;
    }
  }

  lemma ReadFirstQuoted(a: string, rest: string, word: string)
    requires a != ""
    ensures Quoted(EscapeQuotes(a) + "'" + rest, word) ==
      Quoted(EscapeQuotes(a[1..]) + "'" + rest, word + [a[0]])
  {
    var s, t := EscapeQuotes(a) + "'" + rest, EscapeQuotes(a[1..]) + "'" + rest;
    if a[0] == '\'' {
      assert s == "'\\''" + t;
      ReadEscapedQuote(t, word);
    } else {
      assert s == [a[0]] + t;
      ReadQuotedChar(a[0], t, word);
    }
  }

  lemma ReadQuotedChar(c: char, t: string, word: string)
    requires c != '\''
    ensures Quoted([c] + t, word) == Quoted(t, word + [c])
  {
    assert ([c] + t)[1..] == t;
  }

  lemma ReadEscapedQuote(t: string, word: string)
    ensures Quoted("'\\''" + t, word) == Quoted(t, word + ['\''])
  {
    var s := "'\\''" + t;
    assert s[1..] == "\\''" + t && s[1..][1..] == "''" + t;
    assert s[1..][1..][1..] == "'" + t && s[1..][1..][1..][1..] == t;
    assert Quoted(s, word) == Words(s[1..], Some(word));
    assert Words(s[1..], Some(word)) == Words("'" + t, Some(word + ['\'']));
  }

  lemma PlainIsNothingSpecial(a: string)
    ensures Plain(a) <==> !ContainsAny(a, SPECIAL)
  {
  }

  lemma ReadBare(a: string, rest: string)
    requires Plain(a) && a != ""
    ensures Words(a + rest, None) == Words(rest, Some(a))
  {
    ReadPlain(a, rest, None);
    assert "" + a == a;
  }

  lemma ReadInQuotes(a: string, rest: string)
    ensures Words("'" + EscapeQuotes(a) + "'" + rest, None) == Words(rest, Some(a))
  {
    var s := "'" + EscapeQuotes(a) + "'" + rest;
    assert s[0] == '\'' && s[1..] == EscapeQuotes(a) + "'" + rest;
    OpenQuote(s);
    ReadQuoted(a, rest, "");
    assert "" + a == a;
  }

  lemma OpenQuote(s: string)
    requires s != "" && s[0] == '\''
    ensures Words(s, None) == Quoted(s[1..], "")
  {
  }

  lemma ReadShown(a: string, rest: string)
    ensures Words(Shown(a) + rest, None) == Words(rest, Some(a))
  {
    PlainIsNothingSpecial(a);
    if a != "" && Plain(a) { ReadBare(a, rest); } else { ReadInQuotes(a, rest); }
  }

  /** The shell reads back exactly the arguments, whatever they contain. */
  lemma {:induction false} LexUndoesShellJoin(args: seq<string>)
    ensures Lex(Join(ShownAll(args))) == Some(args)
    decreases args
  {
    if args != [] {
      var a, more := args[0], args[1..];
      assert ShownAll(args)[0] == Shown(a) && ShownAll(args)[1..] == ShownAll(more);
      assert args == [a] + more;
      if more == [] {
        ReadShown(a, "");
        assert Shown(a) + "" == Shown(a);
      } else {
        LexUndoesShellJoin(more);
        var rest := " " + Join(ShownAll(more));
        ReadShown(a, rest);
        assert Shown(a) + " " + Join(ShownAll(more)) == Shown(a) + rest;
        assert rest[1..] == Join(ShownAll(more));
      }
    }
  }

  /** No two argument lists print alike. */
  lemma ShellJoinIsInjective(a: seq<string>, b: seq<string>)
    requires Join(ShownAll(a)) == Join(ShownAll(b))
    ensures a == b
  {
    LexUndoesShellJoin(a);
    LexUndoesShellJoin(b);
  }
}

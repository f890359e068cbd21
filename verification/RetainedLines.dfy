/** Which lines of a raw log are in the file that is kept. */
module RetainedLines {
  import opened Basics
  import opened Names
  import opened ResultLine
  import opened Retain

  /** A result object whose keys are sorted, so that its type comes last; rest is whatever is in between. */
  function ResultObject(rest: string, typ: int): string {
    "{\"action\":\"result\"" + rest + ",\"type\":" + RenderInt(typ) + "}"
  }

  lemma RenderIntHasNoColon(n: int)
    ensures |RenderInt(n)| > 0 && ':' !in RenderInt(n) && '\n' !in RenderInt(n)
  {
    RenderNatValue(if n < 0 then -n else n);
  }

  lemma ThreeDigits(n: nat)
    requires 100 <= n < 110
    ensures RenderNat(n) == "10" + ['0' + (n - 100) as char]
  {
    assert RenderNat(10) == RenderNat(1) + "0";
  }

  lemma SameNumber(m: nat, n: int)
    ensures RenderInt(n) == RenderNat(m) <==> n == m
  {
    RenderNatValue(m);
    RenderNatValue(if n < 0 then -n else n);
    if n < 0 { assert RenderInt(n)[0] == '-' && IsDigit(RenderNat(m)[0]); }
  }

  lemma EndsDiffer(s: string, suffix: string, j: nat)
    requires j < |suffix| && (j < |s| ==> s[|s| - 1 - j] != suffix[|suffix| - 1 - j])
    ensures !HasSuffix(s, suffix)
  {
    if |suffix| <= |s| { assert s[|s| - |suffix|..][|suffix| - 1 - j] == s[|s| - 1 - j]; }
  }

  /** The text between the last colon and the closing brace decides which of these suffixes a line has. */
  lemma SuffixIff(front: string, ds: string, three: string)
    requires ':' !in ds && |three| == 3 && ':' !in three
    ensures HasSuffix(front + ":" + ds + "}", "\"type\":" + three + "}") ==> ds == three
  {
    var line, suffix := front + ":" + ds + "}", "\"type\":" + three + "}";
    if |ds| > 3 {
      assert line[|line| - 5] == ds[|ds| - 4] && suffix[|suffix| - 5] == ':';
      EndsDiffer(line, suffix, 4);
    } else if |ds| < 3 {
      assert line[|line| - |ds| - 2] == ':' && suffix[|suffix| - |ds| - 2] == three[2 - |ds|];
      EndsDiffer(line, suffix, |ds| + 1);
    } else if i :| 0 <= i < 3 && ds[i] != three[i] {
      assert line[|line| - 4 + i] == ds[i] && suffix[|suffix| - 4 + i] == three[i];
      EndsDiffer(line, suffix, 3 - i);
    }
  }

  lemma EndsInType(rest: string, typ: int, m: nat, suffix: string)
    requires 100 <= m < 110 && suffix == "\"type\":" + RenderNat(m) + "}"
    ensures HasSuffix(ResultObject(rest, typ), suffix) <==> typ == m
  {
    var front := "{\"action\":\"result\"" + rest + ",\"type\"";
    RenderIntHasNoColon(typ);
    ThreeDigits(m);
    assert ResultObject(rest, typ) == front + ":" + RenderInt(typ) + "}";
    SuffixIff(front, RenderInt(typ), RenderNat(m));
    SameNumber(m, typ);
    if typ == m {
      assert ResultObject(rest, typ) == ("{\"action\":\"result\"" + rest + ",") + suffix;
    }
  }

  lemma SuffixesAreTypes()
    ensures SUFFIX_105 == "\"type\":" + RenderNat(105) + "}"
    ensures SUFFIX_106 == "\"type\":" + RenderNat(106) + "}"
  {
    ThreeDigits(105);
    ThreeDigits(106);
  }

  lemma BeginsAsResult(rest: string, typ: int)
    ensures HasPrefix(ResultObject(rest, typ), PREFIX_RESULT)
  {
  }

  /** A result line is left out of the retained log exactly when its type is 105, progress, or 106, a phase. */
  lemma DroppedIff(rest: string, typ: int)
    ensures RetainDrop(ResultObject(rest, typ)) <==> typ == 105 || typ == 106
  {
    SuffixesAreTypes();
    EndsInType(rest, typ, 105, SUFFIX_105);
    EndsInType(rest, typ, 106, SUFFIX_106);
    BeginsAsResult(rest, typ);
  }

  lemma OtherActionsAreKept(line: string)
    requires !("{\"action\":\"result\"" <= line)
    ensures !RetainDrop(line)
  {
  }

  // ---------------------------------------------------------------- one line of a raw log

  predicate LineStart(text: string) {
    text == "" || text[|text| - 1] == '\n'
  }

  lemma {:induction false} LinesSplit(a: string, b: string)
    requires LineStart(a)
    ensures RestOf(a + b) == RestOf(b)
    ensures LinesUpTo(a + b, MAX_LINE) == LinesUpTo(a, MAX_LINE) + LinesUpTo(b, MAX_LINE)
    decreases |b|
  {
    if b == "" {
      assert a + b == a;
    } else {
      var init, c := b[..|b| - 1], b[|b| - 1];
      assert (a + b)[..|a + b| - 1] == a + init;
      LinesSplit(a, init);
      var last := if c == '\n' && |RestOf(init)| + 1 <= MAX_LINE then Cleaned(RestOf(init)) else [];
      ConcatAssociative(LinesUpTo(a, MAX_LINE), LinesUpTo(init, MAX_LINE), last);
    }
  }

  lemma KeptTextSplit(a: string, b: string)
    requires LineStart(a)
    ensures KeptText(a + b) == KeptText(a) + KeptText(b)
  {
    LinesSplit(a, b);
    KeptConcat(LinesUpTo(a, MAX_LINE), LinesUpTo(b, MAX_LINE));
    UnlinesConcat(Kept(LinesUpTo(a, MAX_LINE)), Kept(LinesUpTo(b, MAX_LINE)));
  }

  /** What one line of the raw log leaves in the file. */
  function Trace(x: string): string {
    if |x| + 1 > MAX_LINE then ""
    else
      var line := if x != "" && x[|x| - 1] == '\r' then x[..|x| - 1] else x;
      if line == "" || RetainDrop(line) then "" else line + "\n"
  }

  lemma KeptTextOfLine(x: string)
    requires NoNewline(x)
    ensures KeptText(x + "\n") == Trace(x)
  {
    AppendLine("", x);
    assert "" + x == x;
    var l := if |x| + 1 <= MAX_LINE then Cleaned(x) else [];
    assert LinesUpTo("", MAX_LINE) + l == l;
    UnlinesOne(l);
  }

  lemma UnlinesOne(l: seq<string>)
    requires |l| <= 1
    ensures Unlines(Kept(l)) == if l == [] || RetainDrop(l[0]) then "" else l[0] + "\n"
  {
    if l != [] {
      assert l[1..] == [] && Unlines([]) == "";
      assert Kept(l) == if RetainDrop(l[0]) then [] else [l[0]];
    }
  }

  /** Every line stands for itself: what is kept of a log is what is kept before the line, the line unless it is
      too long, empty or dropped, and what is kept behind it. */
  lemma EachLineOnItsOwn(a: string, x: string, b: string)
    requires LineStart(a) && NoNewline(x)
    ensures KeptText(a + (x + "\n") + b) == KeptText(a) + Trace(x) + KeptText(b)
  {
    KeptTextSplit(a + (x + "\n"), b);
    KeptTextSplit(a, x + "\n");
    KeptTextOfLine(x);
  }

  /** A filter run that fails nowhere, on a log whose kept lines fit the cap: a result line is in the file left
      behind, in its place, exactly when its type is neither 105 nor 106, with or without a carriage return. */
  lemma ResultLineIsKeptIff(
    a: string, rest: string, typ: int, cr: string, b: string, capBytes: int, faults: Faults)
    requires LineStart(a) && NoNewline(rest) && (cr == "" || cr == "\r")
    requires |ResultObject(rest, typ) + cr| + 1 <= MAX_LINE
    ensures var raw, cap := a + (ResultObject(rest, typ) + cr + "\n") + b, EffectiveCap(capBytes);
      !FinalizeFails(raw, cap, faults) && |KeptText(raw)| <= cap ==>
        FinalText(raw, cap, faults) ==
          KeptText(a) + (if typ == 105 || typ == 106 then "" else ResultObject(rest, typ) + "\n") + KeptText(b)
  {
    var x := ResultObject(rest, typ) + cr;
    var raw, cap := a + (x + "\n") + b, EffectiveCap(capBytes);
    RenderIntHasNoColon(typ);
    EachLineOnItsOwn(a, x, b);
    DroppedIff(rest, typ);
    TraceOfResult(rest, typ, cr);
    FailedFilterLeavesAPrefix(raw, cap, faults);
    FitsTheCapIff(cap, Kept(LinesUpTo(raw, MAX_LINE)));
  }

  lemma TraceOfResult(rest: string, typ: int, cr: string)
    requires cr == "" || cr == "\r"
    requires |ResultObject(rest, typ) + cr| + 1 <= MAX_LINE
    ensures Trace(ResultObject(rest, typ) + cr) ==
      if RetainDrop(ResultObject(rest, typ)) then "" else ResultObject(rest, typ) + "\n"
  {
    var line := ResultObject(rest, typ);
    assert line[|line| - 1] == '}';
    assert (line + "\r")[..|line|] == line && line + "" == line;
  }
}

/** Reading progress lines without a JSON decode. */
module ResultLine {
  // A progress line is a JSON object with sorted keys whose numbers are integers in the form of section 6 of RFC
  // 8259. The byte scanners either return exactly what a decode returns or decline, and the processor ends in the
  // same state either way, the Dropped counter excepted.

  import opened Basics
  import opened Names
  import opened NixLog

  const PREFIX_RESULT := "{\"action\":\"result\""
  const KEY_ID := "\"id\":"
  const KEY_FIELDS := "\"fields\":["
  const SUFFIX_101 := "\"type\":101}"
  const SUFFIX_105 := "\"type\":105}"
  const SUFFIX_106 := "\"type\":106}"

  const UINT64_LIMIT := 0x1_0000_0000_0000_0000
  const INT64_LIMIT := 0x8000_0000_0000_0000

  /** Progress and phase lines: what the retained log leaves out. */
  predicate RetainDrop(line: string) {
    HasPrefix(line, PREFIX_RESULT) && (HasSuffix(line, SUFFIX_105) || HasSuffix(line, SUFFIX_106))
  }

  // ---------------------------------------------------------------- decimal numbers

  predicate IsDigit(c: char) {
    '0' <= c <= '9'
  }

  function DigitValue(c: char): nat
    requires IsDigit(c)
  {
    c as nat - '0' as nat
  }

  ghost predicate AllDigits(s: string) {
    forall i | 0 <= i < |s| :: IsDigit(s[i])
  }

  ghost function Value(acc: nat, ds: string): nat
    requires AllDigits(ds)
    decreases ds
  {
    if ds == [] then acc else Value(acc * 10 + DigitValue(ds[0]), ds[1..])
  }

  lemma {:induction false} ValueSnoc(acc: nat, ds: string, c: char)
    requires AllDigits(ds) && IsDigit(c)
    ensures AllDigits(ds + [c]) && Value(acc, ds + [c]) == Value(acc, ds) * 10 + DigitValue(c)
    decreases ds
  {
    if ds == [] {
      assert ds + [c] == [c] && [c][1..] == [];
    } else {
      assert (ds + [c])[1..] == ds[1..] + [c];
      ValueSnoc(acc * 10 + DigitValue(ds[0]), ds[1..], c);
    }
  }

  ghost function Pow10(k: nat): nat {
    if k == 0 then 1 else 10 * Pow10(k - 1)
  }

  lemma {:induction false} ValueBound(acc: nat, ds: string)
    requires AllDigits(ds)
    ensures Value(acc, ds) < (acc + 1) * Pow10(|ds|)
    decreases ds
  {
    if ds != [] {
      var d := DigitValue(ds[0]);
      ValueBound(acc * 10 + d, ds[1..]);
      calc {
        Value(acc, ds);
      <
        (acc * 10 + d + 1) * Pow10(|ds| - 1);
      <= { MulLe(acc * 10 + d + 1, (acc + 1) * 10, Pow10(|ds| - 1)); }
        (acc + 1) * 10 * Pow10(|ds| - 1);
      }
    }
  }

  lemma MulLe(a: nat, b: nat, c: nat)
    requires a <= b
    ensures a * c <= b * c
  {
  }

  lemma {:induction false} Pow10Grows(j: nat, k: nat)
    requires j <= k
    ensures Pow10(j) <= Pow10(k)
    decreases k
  {
    if j < k { Pow10Grows(j, k - 1); }
  }

  lemma Pow10Limits()
    ensures Pow10(18) == 1_000_000_000_000_000_000 < INT64_LIMIT
    ensures Pow10(19) == 10_000_000_000_000_000_000 < UINT64_LIMIT
  {
    assert Pow10(3) == 1000;
    assert Pow10(6) == 1_000_000;
    assert Pow10(9) == 1_000_000_000;
    assert Pow10(12) == 1_000_000_000_000;
    assert Pow10(15) == 1_000_000_000_000_000;
    assert Pow10(18) == 1_000_000_000_000_000_000;
  }

  /** JSON's integer syntax: no leading zeros, a minus sign in front of negatives. */
  function RenderNat(n: nat): string {
    if n < 10 then ['0' + n as char] else RenderNat(n / 10) + ['0' + (n % 10) as char]
  }

  function RenderInt(n: int): string {
    if n < 0 then "-" + RenderNat(-n) else RenderNat(n)
  }

  lemma {:induction false} RenderNatValue(n: nat)
    ensures AllDigits(RenderNat(n)) && |RenderNat(n)| > 0 && Value(0, RenderNat(n)) == n
  {
    if n < 10 {
      assert RenderNat(n)[1..] == [];
    } else {
      RenderNatValue(n / 10);
      ValueSnoc(0, RenderNat(n / 10), '0' + (n % 10) as char);
    }
  }

  lemma RenderNatBound(n: nat, k: nat)
    requires |RenderNat(n)| <= k
    ensures n < Pow10(k)
  {
    RenderNatValue(n);
    ValueBound(0, RenderNat(n));
    Pow10Grows(|RenderNat(n)|, k);
  }

  // ---------------------------------------------------------------- searching

  predicate MatchAt(s: string, p: string, i: nat) {
    i + |p| <= |s| && s[i..i + |p|] == p
  }

  /** The first occurrence of p at i or later. */
  function IndexFrom(s: string, p: string, i: nat): (r: Option<nat>)
    ensures r.Some? ==> i <= r.value && MatchAt(s, p, r.value) && forall j | i <= j < r.value :: !MatchAt(s, p, j)
    ensures r.None? ==> forall j | i <= j :: !MatchAt(s, p, j)
    decreases |s| - i
  {
    if i + |p| > |s| then None
    else if MatchAt(s, p, i) then Some(i)
    else if i == |s| then None
    else IndexFrom(s, p, i + 1)
  }

  /** The last occurrence of p before position n. */
  function LastIndexBelow(s: string, p: string, n: nat): (r: Option<nat>)
    ensures r.Some? ==> r.value < n && MatchAt(s, p, r.value) && forall j | r.value < j < n :: !MatchAt(s, p, j)
    ensures r.None? ==> forall j | 0 <= j < n :: !MatchAt(s, p, j)
  {
    if n == 0 then None else if MatchAt(s, p, n - 1) then Some(n - 1) else LastIndexBelow(s, p, n - 1)
  }

  // ---------------------------------------------------------------- the id before the suffix

  /** What stands between the last "id": and the suffix, when a comma separates the two. */
  function IdDigits(line: string): Option<string>
    requires HasSuffix(line, SUFFIX_105)
  {
    var head := line[..|line| - |SUFFIX_105|];
    if |head| == 0 || head[|head| - 1] != ',' then None
    else
      var body := head[..|head| - 1];
      match LastIndexBelow(body, KEY_ID, |body| + 1)
      case None => None
      case Some(i) => Some(body[i + |KEY_ID|..])
  }

  ghost function IdOf(line: string): Option<nat>
    requires HasSuffix(line, SUFFIX_105)
  {
    match IdDigits(line)
    case None => None
    case Some(ds) => if 1 <= |ds| <= 19 && AllDigits(ds) then Some(Value(0, ds)) else None
  }

  /** The scanner accumulates in 64 bits; the contract is on unbounded numbers: nothing wraps. */
  method SuffixId(line: string) returns (r: Option<nat>)
    requires HasSuffix(line, SUFFIX_105)
    ensures r == IdOf(line)
    ensures r.Some? ==> r.value < UINT64_LIMIT
  {
    var ds := IdDigits(line);
    if ds.None? || |ds.value| == 0 || |ds.value| > 19 { return None; }
    var digits := ds.value;
    var id := 0;
    Pow10Limits();
    for i := 0 to |digits|
      invariant AllDigits(digits[..i]) && id == Value(0, digits[..i]) && id < Pow10(i) <= Pow10(19)
    {
      if !IsDigit(digits[i]) { return None; }
      PrefixNext(digits, i);
      ValueSnoc(0, digits[..i], digits[i]);
      ValueBound(0, digits[..i + 1]);
      Pow10Grows(i + 1, 19);
      id := (id * 10 + DigitValue(digits[i])) % UINT64_LIMIT;
    }
    assert digits[..|digits|] == digits;
    return Some(id);
  }

  // ---------------------------------------------------------------- the field numbers

  /** The scan of a fields array: numbers read so far, and the one being read. */
  ghost function Scan(rest: string, f: seq<nat>, cur: nat, digits: nat): Option<seq<nat>> {
    if rest == [] then None
    else if IsDigit(rest[0]) then
      if digits >= 18 then None else Scan(rest[1..], f, cur * 10 + DigitValue(rest[0]), digits + 1)
    else if rest[0] == ',' || rest[0] == ']' then
      if digits == 0 || |f| >= 4 then None
      else if rest[0] == ']' then Some(f + [cur])
      else Scan(rest[1..], f + [cur], 0, 0)
    else None
  }

  function Pad(f: seq<int>): (int, int, int, int) {
    (if |f| > 0 then f[0] else 0, if |f| > 1 then f[1] else 0, if |f| > 2 then f[2] else 0, if |f| > 3 then f[3] else 0)
  }

  ghost function FieldsOf(line: string): Option<seq<nat>> {
    match IndexFrom(line, KEY_FIELDS, 0)
    case None => None
    case Some(i) => Scan(line[i + |KEY_FIELDS|..], [], 0, 0)
  }

  method FastFields(line: string) returns (r: Option<seq<nat>>)
    ensures r == FieldsOf(line)
    ensures r.Some? ==> 1 <= |r.value| <= 4 && AllFit(r.value)
  {
    var at := IndexFrom(line, KEY_FIELDS, 0);
    if at.None? { return None; }
    r := ScanList(line[at.value + |KEY_FIELDS|..]);
  }

  predicate AllFit(f: seq<nat>) {
    forall x | x in f :: x < INT64_LIMIT
  }

  /** One more digit never overflows: 18 digits fit an int64. */
  lemma DigitFits(cur: nat, digits: nat, c: char)
    requires digits < 18 && cur < Pow10(digits) && IsDigit(c)
    ensures cur * 10 + DigitValue(c) < Pow10(digits + 1) <= Pow10(18) <= INT64_LIMIT
  {
    Pow10Limits();
    Pow10Grows(digits + 1, 18);
    assert Pow10(digits + 1) == 10 * Pow10(digits);
  }

  method ScanList(rest: string) returns (r: Option<seq<nat>>)
    ensures r == Scan(rest, [], 0, 0)
    ensures r.Some? ==> 1 <= |r.value| <= 4 && AllFit(r.value)
  {
    var f: seq<nat>, cur: nat, digits := [], 0, 0;
    Pow10Limits();
    assert rest[0..] == rest;
    for i := 0 to |rest|
      invariant |f| <= 4 && digits <= 18 && cur < Pow10(digits) && cur < INT64_LIMIT && AllFit(f)
      invariant Scan(rest[i..], f, cur, digits) == Scan(rest, [], 0, 0)
    {
      var c := rest[i];
      assert rest[i..][0] == c && rest[i..][1..] == rest[i + 1..];
      if IsDigit(c) {
        if digits >= 18 { return None; }
        DigitFits(cur, digits, c);
        cur, digits := (cur * 10 + DigitValue(c)) % INT64_LIMIT, digits + 1;
      } else if c == ',' || c == ']' {
        if digits == 0 || |f| >= 4 { return None; }
        f := f + [cur];
        if c == ']' { return Some(f); }
        cur, digits := 0, 0;
      } else {
        return None;
      }
    }
    assert rest[|rest|..] == [];
    return None;
  }

  // ---------------------------------------------------------------- canonical progress lines

  function JoinInts(fields: seq<int>): string {
    if fields == [] then "" else if |fields| == 1 then RenderInt(fields[0])
    else RenderInt(fields[0]) + "," + JoinInts(fields[1..])
  }

  function RenderLine(fields: seq<int>, id: nat): string {
    PREFIX_RESULT + "," + KEY_FIELDS + JoinInts(fields) + "]," + KEY_ID + RenderNat(id) + "," + SUFFIX_105
  }

  // What a full decode makes of the same line.
  function DecodeFields(fields: seq<int>): Option<(int, int, int, int)> {
    if 1 <= |fields| <= 4 && forall x | x in fields :: -INT64_LIMIT <= x < INT64_LIMIT then Some(Pad(fields)) else None
  }

  function Decoded(fields: seq<int>, id: nat): Option<Event> {
    if id < UINT64_LIMIT then Some(Result(id, TYPE_PROGRESS, DecodeFields(fields))) else None
  }

  lemma Differs(s: string, p: string, i: nat, k: nat)
    requires k < |p| && (i + |p| <= |s| ==> s[i + k] != p[k])
    ensures !MatchAt(s, p, i)
  {
    if i + |p| <= |s| { assert s[i..i + |p|][k] == s[i + k]; }
  }

  lemma NoLaterKey(pre: string, ds: string, j: nat)
    requires AllDigits(ds) && j > |pre|
    ensures !MatchAt(pre + KEY_ID + ds, KEY_ID, j)
  {
    var s := pre + KEY_ID + ds;
    if j == |pre| + 3 {
      Differs(s, KEY_ID, j, 1);
    } else {
      Differs(s, KEY_ID, j, 0);
    }
  }

  lemma LastKey(pre: string, ds: string)
    requires AllDigits(ds)
    ensures var body := pre + KEY_ID + ds; LastIndexBelow(body, KEY_ID, |body| + 1) == Some(|pre|)
  {
    var body := pre + KEY_ID + ds;
    assert body[|pre|..|pre| + 5] == KEY_ID;
    assert MatchAt(body, KEY_ID, |pre|);
    var r := LastIndexBelow(body, KEY_ID, |body| + 1);
    if r.Some? && r.value > |pre| { NoLaterKey(pre, ds, r.value); }
  }

  lemma SplitSuffix(a: string, suffix: string)
    ensures HasSuffix(a + suffix, suffix) && (a + suffix)[..|a + suffix| - |suffix|] == a
  {
  }

  lemma IdDigitsOf(pre: string, ds: string)
    requires AllDigits(ds)
    ensures HasSuffix(pre + KEY_ID + ds + "," + SUFFIX_105, SUFFIX_105)
    ensures IdDigits(pre + KEY_ID + ds + "," + SUFFIX_105) == Some(ds)
  {
    var body := pre + KEY_ID + ds;
    SplitSuffix(body + ",", SUFFIX_105);
    assert (body + ",")[..|body|] == body;
    LastKey(pre, ds);
    assert body[|pre| + 5..] == ds;
  }

  /** On a progress line the scanner returns exactly the id, or declines ids of 20 digits and more. */
  lemma SuffixIdOfProgress(fields: seq<int>, id: nat)
    ensures HasSuffix(RenderLine(fields, id), SUFFIX_105)
    ensures IdOf(RenderLine(fields, id)) == if |RenderNat(id)| <= 19 then Some(id) else None
    ensures |RenderNat(id)| <= 19 ==> id < UINT64_LIMIT
  {
    RenderNatValue(id);
    IdDigitsOf(PREFIX_RESULT + "," + KEY_FIELDS + JoinInts(fields) + "],", RenderNat(id));
    if |RenderNat(id)| <= 19 { IdFits(id); }
  }

  lemma IdFits(id: nat)
    requires |RenderNat(id)| <= 19
    ensures id < UINT64_LIMIT
  {
    RenderNatBound(id, 19);
    Pow10Limits();
  }

  lemma {:induction false} ScanDigits(ds: string, rest: string, f: seq<nat>, cur: nat, digits: nat)
    requires AllDigits(ds) && digits <= 18
    ensures Scan(ds + rest, f, cur, digits) ==
      if digits + |ds| <= 18 then Scan(rest, f, Value(cur, ds), digits + |ds|) else None
    decreases |ds|
  {
    if ds == [] {
      assert ds + rest == rest;
    } else {
      assert (ds + rest)[1..] == ds[1..] + rest;
      if digits < 18 { ScanDigits(ds[1..], rest, f, cur * 10 + DigitValue(ds[0]), digits + 1); }
    }
  }

  /** A number the fast form reads: not negative, at most 18 digits. */
  predicate Plain18(n: int) {
    n >= 0 && |RenderNat(n)| <= 18
  }

  lemma ScanNumber(n: int, rest: string, f: seq<nat>)
    ensures Plain18(n) ==> Scan(RenderInt(n) + rest, f, 0, 0) == Scan(rest, f, n, |RenderNat(n)|) && |RenderNat(n)| > 0
    ensures !Plain18(n) ==> Scan(RenderInt(n) + rest, f, 0, 0) == None
  {
    if n >= 0 {
      RenderNatValue(n);
      ScanDigits(RenderNat(n), rest, f, 0, 0);
    }
  }

  lemma ScanSeparator(n: nat, rest: string, f: seq<nat>, digits: nat)
    ensures Scan("]" + rest, f, n, digits) == if digits == 0 || |f| >= 4 then None else Some(f + [n])
    ensures Scan("," + rest, f, n, digits) == if digits == 0 || |f| >= 4 then None else Scan(rest, f + [n], 0, 0)
  {
    assert ("," + rest)[1..] == rest;
  }

  /** Reading the first of several numbers. */
  lemma ScanFirst(fields: seq<int>, rest: string, f: seq<nat>)
    requires |fields| > 1
    ensures Scan(JoinInts(fields) + "]" + rest, f, 0, 0) ==
      if Plain18(fields[0]) && |f| < 4 then Scan(JoinInts(fields[1..]) + "]" + rest, f + [fields[0]], 0, 0) else None
  {
    var n, tail := fields[0], JoinInts(fields[1..]) + "]" + rest;
    assert JoinInts(fields) + "]" + rest == RenderInt(n) + ("," + tail);
    ScanNumber(n, "," + tail, f);
    if Plain18(n) { ScanSeparator(n, tail, f, |RenderNat(n)|); }
  }

  lemma ScanLast(n: int, rest: string, f: seq<nat>)
    ensures Scan(RenderInt(n) + "]" + rest, f, 0, 0) == if Plain18(n) && |f| < 4 then Some(f + [n]) else None
  {
    assert RenderInt(n) + "]" + rest == RenderInt(n) + ("]" + rest);
    ScanNumber(n, "]" + rest, f);
    if Plain18(n) { ScanSeparator(n, rest, f, |RenderNat(n)|); }
  }

  lemma {:induction false} ScanFields(fields: seq<int>, rest: string, f: seq<nat>)
    ensures Scan(JoinInts(fields) + "]" + rest, f, 0, 0) ==
      if fields != [] && |f| + |fields| <= 4 && forall x | x in fields :: Plain18(x)
      then Some(f + fields) else None
    decreases |fields|
  {
    if fields == [] {
      assert JoinInts(fields) + "]" + rest == "]" + rest;
      ScanSeparator(0, rest, f, 0);
    } else {
      var n := fields[0];
      assert fields == [n] + fields[1..];
      if |fields| == 1 {
        assert fields == [n];
        ScanLast(n, rest, f);
      } else {
        ScanFirst(fields, rest, f);
        if Plain18(n) && |f| < 4 {
          ScanFields(fields[1..], rest, f + [n]);
          ConcatAssociative(f, [n], fields[1..]);
        }
      }
    }
  }

  lemma FirstKeyAt(pre: string, rest: string)
    requires forall k | 0 <= k < |pre| :: pre[k] != 'f'
    requires |pre| > 0 && pre[|pre| - 1] == ','
    ensures IndexFrom(pre + KEY_FIELDS + rest, KEY_FIELDS, 0) == Some(|pre|)
  {
    var s := pre + KEY_FIELDS + rest;
    assert s[|pre|..|pre| + |KEY_FIELDS|] == KEY_FIELDS;
    assert MatchAt(s, KEY_FIELDS, |pre|);
    forall j | 0 <= j < |pre| ensures !MatchAt(s, KEY_FIELDS, j) {
      if j + 1 < |pre| {
        assert s[j + 1] == pre[j + 1];
        Differs(s, KEY_FIELDS, j, 1);
      } else {
        assert s[j] == pre[j];
        Differs(s, KEY_FIELDS, j, 0);
      }
    }
  }

  lemma FieldsAt(pre: string, fields: seq<int>, tail: string)
    requires forall k | 0 <= k < |pre| :: pre[k] != 'f'
    requires |pre| > 0 && pre[|pre| - 1] == ','
    ensures FieldsOf(pre + KEY_FIELDS + (JoinInts(fields) + "]" + tail)) ==
      if 1 <= |fields| <= 4 && (forall x | x in fields :: Plain18(x)) then Some(fields) else None
  {
    var rest := JoinInts(fields) + "]" + tail;
    FirstKeyAt(pre, rest);
    assert (pre + KEY_FIELDS + rest)[|pre| + |KEY_FIELDS|..] == rest;
    ScanFields(fields, tail, []);
    assert [] + fields == fields;
  }

  lemma Regroup(pre: string, numbers: string, id: string)
    ensures pre + KEY_FIELDS + numbers + "]," + KEY_ID + id + "," + SUFFIX_105
         == pre + KEY_FIELDS + (numbers + "]" + ("," + KEY_ID + id + "," + SUFFIX_105))
  {
  }

  /** On a progress line the scanner returns exactly the fields, or declines. */
  lemma FastFieldsOfProgress(fields: seq<int>, id: nat)
    ensures FieldsOf(RenderLine(fields, id)) ==
      if 1 <= |fields| <= 4 && (forall x | x in fields :: Plain18(x)) then Some(fields) else None
  {
    var pre := PREFIX_RESULT + ",";
    var tail := "," + KEY_ID + RenderNat(id) + "," + SUFFIX_105;
    Regroup(pre, JoinInts(fields), RenderNat(id));
    FieldsAt(pre, fields, tail);
  }

  // ---------------------------------------------------------------- one line

  /** What a line does without a decode, for the lines the byte checks settle. */
  ghost function FastLine(s: State, line: string): Option<State> {
    if !HasPrefix(line, PREFIX_RESULT) then None
    else if HasSuffix(line, SUFFIX_101) then Some(Drop(s))
    else if HasSuffix(line, SUFFIX_105) && IdOf(line).Some? then FastProgress(s, IdOf(line).value, FieldsOf(line))
    else None
  }

  function FastProgress(s: State, id: nat, fields: Option<seq<nat>>): Option<State> {
    if !Tracked(s, id) then Some(Drop(s))
    else if fields.Some? then Some(Fold(s, id, Pad(fields.value)))
    else None
  }

  /** The processor's line: count it, take the fast path where it applies, decode otherwise. */
  ghost function OnLine(opts: Options, s0: State, line: string, decode: string -> Option<Event>, at: Stamp): State {
    OnSeen(opts, LineSeen(s0), line, decode, at)
  }

  function LineSeen(s: State): State {
    s.(sum := s.sum.(lines := s.sum.lines + 1))
  }

  ghost function OnSeen(opts: Options, s: State, line: string, decode: string -> Option<Event>, at: Stamp): State {
    match FastLine(s, line)
    case Some(t) => t
    case None => Decode(opts, s, line, decode, at)
  }

  function Drop(s: State): State {
    s.(sum := s.sum.(dropped := s.sum.dropped + 1))
  }

  function Decode(opts: Options, s: State, line: string, decode: string -> Option<Event>, at: Stamp): State {
    match decode(line)
    case None => s.(sum := s.sum.(malformed := s.sum.malformed + 1))
    case Some(e) => Step(opts, s, e, at)
  }

  function AlwaysDecode(opts: Options, s: State, line: string, decode: string -> Option<Event>, at: Stamp): State {
    Decode(opts, LineSeen(s), line, decode, at)
  }

  /** The decoder reads a build-log line as such, and a progress line as its numbers. */
  ghost predicate Faithful(line: string, decode: string -> Option<Event>) {
    && (HasPrefix(line, PREFIX_RESULT) && HasSuffix(line, SUFFIX_101) ==>
          decode(line).Some? && decode(line).value.Result? && decode(line).value.typ == 101)
    && (HasPrefix(line, PREFIX_RESULT) && HasSuffix(line, SUFFIX_105) ==>
          exists fields: seq<int>, id: nat :: line == RenderLine(fields, id) && decode(line) == Decoded(fields, id))
  }

  lemma Plain18Fits(x: int)
    requires Plain18(x)
    ensures 0 <= x < INT64_LIMIT
  {
    RenderNatBound(x, 18);
    Pow10Limits();
  }

  /** The fast path and a full decode leave the same state, the Dropped counter excepted. */
  lemma FastPathRefinesDecode(opts: Options, s0: State, line: string, decode: string -> Option<Event>, at: Stamp)
    requires Faithful(line, decode)
    ensures var fast, full := OnLine(opts, s0, line, decode, at), AlwaysDecode(opts, s0, line, decode, at);
      SameButDropped(fast, full)
  {
    var s := LineSeen(s0);
    if HasPrefix(line, PREFIX_RESULT) && HasSuffix(line, SUFFIX_105) && !HasSuffix(line, SUFFIX_101) {
      var fields: seq<int>, id: nat :| line == RenderLine(fields, id) && decode(line) == Decoded(fields, id);
      ProgressLine(opts, s, fields, id, decode, at);
    } else if FastLine(s, line).None? {
      SameAsItself(Decode(opts, s, line, decode, at));
    }
  }

  ghost predicate SameButDropped(fast: State, full: State) {
    full == fast.(sum := fast.sum.(dropped := full.sum.dropped))
  }

  lemma ProgressStep(opts: Options, s: State, fields: seq<int>, id: nat, read: Option<seq<nat>>, at: Stamp)
    requires read.Some? ==> read.value == fields && 1 <= |fields| <= 4 && forall x | x in fields :: Plain18(x)
    requires FastProgress(s, id, read).Some?
    ensures SameButDropped(FastProgress(s, id, read).value,
                           Step(opts, s, Result(id, TYPE_PROGRESS, DecodeFields(fields)), at))
  {
    if read.Some? {
      forall x | x in fields ensures -INT64_LIMIT <= x < INT64_LIMIT { Plain18Fits(x); }
    }
  }

  lemma ProgressLine(opts: Options, s: State, fields: seq<int>, id: nat, decode: string -> Option<Event>, at: Stamp)
    requires decode(RenderLine(fields, id)) == Decoded(fields, id)
    requires !HasSuffix(RenderLine(fields, id), SUFFIX_101)
    ensures var line := RenderLine(fields, id);
      SameButDropped(OnSeen(opts, s, line, decode, at), Decode(opts, s, line, decode, at))
  {
    var line := RenderLine(fields, id);
    match FastLine(s, line)
    case Some(t) => FastLineOfProgress(opts, s, fields, id, at);
    case None => SameAsItself(Decode(opts, s, line, decode, at));
  }

  lemma SameAsItself(s: State)
    ensures SameButDropped(s, s)
  {
  }

  lemma FastLineOfProgress(opts: Options, s: State, fields: seq<int>, id: nat, at: Stamp)
    requires !HasSuffix(RenderLine(fields, id), SUFFIX_101)
    ensures var fast := FastLine(s, RenderLine(fields, id)); fast.Some? ==>
      Decoded(fields, id).Some? && SameButDropped(fast.value, Step(opts, s, Decoded(fields, id).value, at))
  {
    var line := RenderLine(fields, id);
    SuffixIdOfProgress(fields, id);
    if FastLine(s, line).Some? {
      FastFieldsOfProgress(fields, id);
      ProgressStep(opts, s, fields, id, FieldsOf(line), at);
    }
  }
}

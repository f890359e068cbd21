/**
 Watching the output of a build for nix's plan message, and passing every byte of it on.

 What a line is (a build header, a fetch header, a store path, other text) is a parameter: the models
 below hold for every classification of lines.
 */
module Plan {
  import opened Basics
  import opened Names

  const MAX_PLAN_LINE := 64 * 1024
  const WARN_DERIVATION_NAMES := 10

  datatype Kind =
    | Blank
    | StorePath(name: string)
    | BuildHeader(count: nat)
    | FetchHeader(count: nat, download: Option<real>)
    | OtherText

  type Classify = string -> Kind

  datatype Stats = Stats(builds: nat, fetches: nat, download: real, hasDownload: bool, derivations: seq<string>)

  datatype ListState = Idle | InBuildList | InFetchList

  datatype Block = Block(stats: Stats, state: ListState, open: bool, closed: bool)

  datatype Parser = Parser(block: Block, partial: string, skip: bool)

  const START := Block(Stats(0, 0, 0.0, false, []), Idle, false, false)

  // ---------------------------------------------------------------- one line, one byte, one chunk

  function CloseBlock(b: Block): Block {
    b.(state := Idle, open := false, closed := b.closed || b.open)
  }

  function Line(c: Classify, b: Block, raw: string): Block {
    match c(raw)
    case Blank => b
    case StorePath(name) =>
      if b.state.Idle? then CloseBlock(b)
      else if b.state.InBuildList? && |b.stats.derivations| < WARN_DERIVATION_NAMES then
        b.(stats := b.stats.(derivations := b.stats.derivations + [name]))
      else b
    case BuildHeader(n) => b.(stats := b.stats.(builds := b.stats.builds + n), state := InBuildList, open := true)
    case FetchHeader(n, d) => b.(stats := AddFetches(b.stats, n, d), state := InFetchList, open := true)
    case OtherText => CloseBlock(b)
  }

  function AddFetches(s: Stats, n: nat, d: Option<real>): Stats {
    match d
    case None => s.(fetches := s.fetches + n)
    case Some(mib) => s.(fetches := s.fetches + n, download := s.download + mib, hasDownload := true)
  }

  function FeedByte(c: Classify, p: Parser, b: char): Parser {
    if b == '\n' || b == '\r' then Parser(if p.skip then p.block else Line(c, p.block, p.partial), "", false)
    else if p.skip then p
    else if |p.partial| >= MAX_PLAN_LINE then Parser(p.block, "", true)
    else p.(partial := p.partial + [b])
  }

  function FeedAll(c: Classify, p: Parser, bytes: string): Parser {
    if bytes == "" then p else FeedByte(c, FeedAll(c, p, bytes[..|bytes| - 1]), bytes[|bytes| - 1])
  }

  function Flush(c: Classify, p: Parser): Parser {
    Parser(CloseBlock(if !p.skip && |p.partial| > 0 then Line(c, p.block, p.partial) else p.block), "", false)
  }

  // ---------------------------------------------------------------- the same by whole lines

  predicate LineEnd(b: char) {
    b == '\n' || b == '\r'
  }

  /** The bytes after the last line end. */
  function Tail(bytes: string): string {
    if bytes == "" || LineEnd(bytes[|bytes| - 1]) then "" else Tail(bytes[..|bytes| - 1]) + [bytes[|bytes| - 1]]
  }

  /** The lines ended in a text, the overlong ones left out. */
  function EndedLines(bytes: string): seq<string> {
    if bytes == "" then []
    else
      var init := bytes[..|bytes| - 1];
      if LineEnd(bytes[|bytes| - 1]) then EndedLines(init) + Sized(Tail(init)) else EndedLines(init)
  }

  function Sized(line: string): seq<string> {
    if |line| <= MAX_PLAN_LINE then [line] else []
  }

  /** All the lines of a finished text. */
  function AllLines(bytes: string): seq<string> {
    EndedLines(bytes) + if Tail(bytes) == "" then [] else Sized(Tail(bytes))
  }

  function Lines(c: Classify, b: Block, lines: seq<string>): Block {
    if lines == [] then b else Line(c, Lines(c, b, lines[..|lines| - 1]), lines[|lines| - 1])
  }

  lemma LinesSnoc(c: Classify, b: Block, lines: seq<string>, l: string)
    ensures Lines(c, b, lines + [l]) == Line(c, Lines(c, b, lines), l)
  {
    assert (lines + [l])[..|lines|] == lines;
  }

  /** The incremental parser is a line splitter in front of Line. */
  lemma {:induction false} ParserIsLineByLine(c: Classify, bytes: string)
    ensures var long := |Tail(bytes)| > MAX_PLAN_LINE;
      FeedAll(c, Parser(START, "", false), bytes) ==
      Parser(Lines(c, START, EndedLines(bytes)), if long then "" else Tail(bytes), long)
  {
    if bytes != "" {
      var init := bytes[..|bytes| - 1];
      ParserIsLineByLine(c, init);
      assert EndedLines(init) + [] == EndedLines(init);
      LinesSnoc(c, START, EndedLines(init), Tail(init));
    }
  }

  /** What the parser knows at the end is what the lines of the whole text say. */
  lemma FinalBlock(c: Classify, bytes: string)
    ensures Flush(c, FeedAll(c, Parser(START, "", false), bytes)).block == CloseBlock(Lines(c, START, AllLines(bytes)))
  {
    ParserIsLineByLine(c, bytes);
    assert EndedLines(bytes) + [] == EndedLines(bytes);
    LinesSnoc(c, START, EndedLines(bytes), Tail(bytes));
  }

  lemma {:induction false} LinesSplit(a: string, b: string)
    requires a == "" || a[|a| - 1] == '\n' || a[|a| - 1] == '\r'
    ensures Tail(a + b) == Tail(b) && EndedLines(a + b) == EndedLines(a) + EndedLines(b)
    decreases |b|
  {
    if b == "" {
      assert a + b == a;
    } else {
      var init := b[..|b| - 1];
      assert (a + b)[..|a + b| - 1] == a + init;
      LinesSplit(a, init);
      ConcatAssociative(EndedLines(a), EndedLines(init), Sized(Tail(init)));
    }
  }

  lemma OneLine(line: string, end: char)
    requires '\n' !in line && '\r' !in line && (end == '\n' || end == '\r')
    ensures EndedLines(line + [end]) == if |line| <= 0x1_0000 then [line] else []
  {
    UnendedLine(line);
    assert (line + [end])[..|line|] == line;
  }

  /** Lines end in a newline or a carriage return; one of more than 64 KiB is passed over, any other is read. */
  lemma EachLineIsRead(a: string, line: string, end: char, b: string)
    requires a == "" || a[|a| - 1] == '\n' || a[|a| - 1] == '\r'
    requires '\n' !in line && '\r' !in line && (end == '\n' || end == '\r')
    ensures EndedLines(a + (line + [end] + b)) ==
      EndedLines(a) + ((if |line| <= 0x1_0000 then [line] else []) + EndedLines(b))
  {
    LinesSplit(a, line + [end] + b);
    LinesSplit(line + [end], b);
    OneLine(line, end);
  }

  // ---------------------------------------------------------------- what the statistics count

  function BuildsOf(c: Classify, line: string): nat {
    match c(line) case BuildHeader(n) => n case _ => 0
  }

  function FetchesOf(c: Classify, line: string): nat {
    match c(line) case FetchHeader(n, _) => n case _ => 0
  }

  function Sum(f: string -> nat, lines: seq<string>): nat {
    if lines == [] then 0 else Sum(f, lines[..|lines| - 1]) + f(lines[|lines| - 1])
  }

  function DownloadOf(c: Classify, line: string): Option<real> {
    match c(line) case FetchHeader(_, d) => d case _ => None
  }

  function SumDownloads(c: Classify, lines: seq<string>): real {
    if lines == [] then 0.0
    else
      var d := DownloadOf(c, lines[|lines| - 1]);
      SumDownloads(c, lines[..|lines| - 1]) + if d.Some? then d.value else 0.0
  }

  /** Builds, fetches and megabytes sum every header of the text, whatever surrounds them. */
  lemma {:induction false} StatsSumHeaders(c: Classify, lines: seq<string>)
    ensures var stats := Lines(c, START, lines).stats;
      && stats.builds == Sum(l => BuildsOf(c, l), lines) && stats.fetches == Sum(l => FetchesOf(c, l), lines)
      && stats.download == SumDownloads(c, lines)
      && (stats.hasDownload <==> exists i :: 0 <= i < |lines| && DownloadOf(c, lines[i]).Some?)
  {
    if lines != [] {
      StatsSumHeaders(c, lines[..|lines| - 1]);
    }
  }

  // ---------------------------------------------------------------- which lines are a list

  predicate IsHeader(k: Kind) {
    k.BuildHeader? || k.FetchHeader?
  }

  /** The lines that a list goes on over. */
  predicate GoesOn(k: Kind) {
    k.Blank? || k.StorePath?
  }

  /** Line h is a header, and its list goes on to the end of the text. */
  predicate ListFrom(c: Classify, lines: seq<string>, h: int) {
    0 <= h < |lines| && IsHeader(c(lines[h])) && forall j | h < j < |lines| :: GoesOn(c(lines[j]))
  }

  ghost predicate InList(c: Classify, lines: seq<string>) {
    exists h :: ListFrom(c, lines, h)
  }

  ghost predicate InBuilds(c: Classify, lines: seq<string>) {
    exists h :: ListFrom(c, lines, h) && c(lines[h]).BuildHeader?
  }

  /** Line i ended a list that began at line h. */
  predicate EndsList(c: Classify, lines: seq<string>, h: int, i: int) {
    0 <= h < i < |lines| && ListFrom(c, lines[..i], h) && c(lines[i]).OtherText?
  }

  ghost predicate ListEnded(c: Classify, lines: seq<string>) {
    exists h, i :: EndsList(c, lines, h, i)
  }

  /** The store paths listed under headers of builds, in order. */
  ghost function ListedBuilds(c: Classify, lines: seq<string>): seq<string> {
    if lines == [] then []
    else
      var init, k := lines[..|lines| - 1], c(lines[|lines| - 1]);
      ListedBuilds(c, init) + if k.StorePath? && InBuilds(c, init) then [k.name] else []
  }

  lemma ListNext(c: Classify, lines: seq<string>, l: string)
    ensures InList(c, lines + [l]) <==> IsHeader(c(l)) || (GoesOn(c(l)) && InList(c, lines))
    ensures InBuilds(c, lines + [l]) <==> c(l).BuildHeader? || (GoesOn(c(l)) && InBuilds(c, lines))
  {
    var more := lines + [l];
    if IsHeader(c(l)) { assert ListFrom(c, more, |lines|); }
    if GoesOn(c(l)) {
      forall h | ListFrom(c, lines, h) ensures ListFrom(c, more, h) {}
    }
    forall h | ListFrom(c, more, h) && h < |lines| ensures ListFrom(c, lines, h) && GoesOn(c(l)) {
      assert GoesOn(c(more[|lines|]));
      forall j | h < j < |lines| ensures GoesOn(c(lines[j])) { assert more[j] == lines[j]; }
      assert more[h] == lines[h];
    }
    forall h | ListFrom(c, more, h) && h >= |lines| ensures h == |lines| && IsHeader(c(l)) {}
  }

  lemma EndNext(c: Classify, lines: seq<string>, l: string)
    ensures ListEnded(c, lines + [l]) <==> ListEnded(c, lines) || (c(l).OtherText? && InList(c, lines))
  {
    var more := lines + [l];
    forall h, i | EndsList(c, lines, h, i) ensures EndsList(c, more, h, i) { assert more[..i] == lines[..i]; }
    forall h, i | EndsList(c, more, h, i) ensures EndsList(c, lines, h, i) || (i == |lines| && ListFrom(c, lines, h)) {
      assert more[..i] == lines[..i];
    }
    assert more[..|lines|] == lines;
    forall h | ListFrom(c, lines, h) && c(l).OtherText? ensures EndsList(c, more, h, |lines|) {}
  }

  lemma NoListYet(c: Classify)
    ensures !InList(c, []) && !InBuilds(c, []) && !ListEnded(c, [])
  {
    forall h ensures !ListFrom(c, [], h) {}
  }

  /** What the parser knows of lists: it is in one exactly when the lines since the last header go on with it,
      and a list has ended exactly when another text followed one. */
  lemma {:induction false} ListsAreSeen(c: Classify, lines: seq<string>)
    ensures var b := Lines(c, START, lines);
      && (b.open <==> InList(c, lines)) && (b.state.Idle? <==> !b.open)
      && (b.open ==> (b.state.InBuildList? <==> InBuilds(c, lines)))
      && (b.closed <==> ListEnded(c, lines))
  {
    if lines == [] {
      NoListYet(c);
    } else {
      var init, l := lines[..|lines| - 1], lines[|lines| - 1];
      assert lines == init + [l];
      ListsAreSeen(c, init);
      ListNext(c, init, l);
      EndNext(c, init, l);
    }
  }

  function FirstTen(names: seq<string>): seq<string> {
    if |names| <= 10 then names else names[..10]
  }

  lemma FirstTenNext(names: seq<string>, n: string)
    ensures FirstTen(names + [n]) == if |names| < 10 then FirstTen(names) + [n] else FirstTen(names)
  {
  }

  /** The names are those of the first ten derivations listed. */
  lemma {:induction false} NamesAreListed(c: Classify, lines: seq<string>)
    ensures Lines(c, START, lines).stats.derivations == FirstTen(ListedBuilds(c, lines))
  {
    if lines != [] {
      var init := lines[..|lines| - 1];
      NamesAreListed(c, init);
      ListsAreSeen(c, init);
      NotIdleInBuilds(c, init);
      var k, all := c(lines[|lines| - 1]), ListedBuilds(c, init);
      if k.StorePath? { FirstTenNext(all, k.name); }
      assert all + [] == all;
    }
  }

  lemma NotIdleInBuilds(c: Classify, lines: seq<string>)
    ensures InBuilds(c, lines) ==> InList(c, lines)
  {
  }

  // ---------------------------------------------------------------- chunks

  lemma {:induction false} FeedConcat(c: Classify, p: Parser, a: string, b: string)
    ensures FeedAll(c, p, a + b) == FeedAll(c, FeedAll(c, p, a), b)
    decreases |b|
  {
    if b == "" {
      assert a + b == a;
    } else {
      assert (a + b)[..|a + b| - 1] == a + b[..|b| - 1];
      FeedConcat(c, p, a, b[..|b| - 1]);
    }
  }

  /** Equal but for the note that a block ended, which the reader of the parser takes away. */
  predicate Same(p: Parser, q: Parser) {
    p.(block := p.block.(closed := false)) == q.(block := q.block.(closed := false))
  }

  lemma SameLine(c: Classify, b: Block, d: Block, raw: string)
    requires b.(closed := false) == d.(closed := false)
    ensures Line(c, b, raw).(closed := false) == Line(c, d, raw).(closed := false)
    ensures (b.closed ==> d.closed) ==> (Line(c, b, raw).closed ==> Line(c, d, raw).closed)
  {
  }

  lemma SameByte(c: Classify, p: Parser, q: Parser, b: char)
    requires Same(p, q)
    ensures Same(FeedByte(c, p, b), FeedByte(c, q, b))
    ensures (p.block.closed ==> q.block.closed) ==> (FeedByte(c, p, b).block.closed ==> FeedByte(c, q, b).block.closed)
  {
    SameLine(c, p.block, q.block, p.partial);
  }

  lemma {:induction false} SameFeed(c: Classify, p: Parser, q: Parser, bytes: string)
    requires Same(p, q)
    ensures Same(FeedAll(c, p, bytes), FeedAll(c, q, bytes))
    ensures (p.block.closed ==> q.block.closed) ==>
      (FeedAll(c, p, bytes).block.closed ==> FeedAll(c, q, bytes).block.closed)
  {
    if bytes != "" {
      var init := bytes[..|bytes| - 1];
      SameFeed(c, p, q, init);
      SameByte(c, FeedAll(c, p, init), FeedAll(c, q, init), bytes[|bytes| - 1]);
    }
  }

  // ---------------------------------------------------------------- when a warning is due

  /** A plan over the threshold is announced by the end of its block: until then the block is open. */
  predicate Watched(b: Block, warn: int) {
    b.stats.builds > warn ==> b.open || b.closed
  }

  /** Over the threshold a block has been open, and the count never falls back. */
  predicate Rises(b: Block, after: Block, warn: int) {
    && b.stats.builds <= after.stats.builds
    && (Watched(b, warn) ==> Watched(after, warn))
    && (b.closed ==> after.closed)
  }

  lemma {:induction false} FeedRises(c: Classify, p: Parser, bytes: string, warn: int)
    ensures Rises(p.block, FeedAll(c, p, bytes).block, warn)
  {
    if bytes != "" {
      FeedRises(c, p, bytes[..|bytes| - 1], warn);
    }
  }

  lemma FlushRises(c: Classify, p: Parser, warn: int)
    ensures Rises(p.block, Flush(c, p).block, warn) && !Flush(c, p).block.open
  {
  }

  lemma SameFlush(c: Classify, p: Parser, q: Parser)
    requires Same(p, q)
    ensures Flush(c, p).block.stats == Flush(c, q).block.stats
  {
  }

  class PlanParser {
    const classify: Classify
    var stats: Stats
    var partial: string
    var skip: bool
    var state: ListState
    var open: bool
    var closed: bool

    ghost function Abs(): Parser
      reads this
    {
      Parser(Block(stats, state, open, closed), partial, skip)
    }

    constructor (classify: Classify)
      ensures this.classify == classify && Abs() == Parser(START, "", false)
    {
      this.classify := classify;
      stats, partial, skip := START.stats, "", false;
      state, open, closed := Idle, false, false;
    }

    method Feed(chunk: string)
      modifies this
      ensures Abs() == FeedAll(classify, old(Abs()), chunk)
    {
      for i := 0 to |chunk|
        invariant Abs() == FeedAll(classify, old(Abs()), chunk[..i])
      {
        var b := chunk[i];
        assert chunk[..i + 1][..i] == chunk[..i];
        if b == '\n' || b == '\r' {
          if !skip { ReadLine(partial); }
          partial := "";
          skip := false;
          continue;
        }
        if skip { continue; }
        if |partial| >= MAX_PLAN_LINE {
          skip := true;
          partial := "";
          continue;
        }
        partial := partial + [b];
      }
      assert chunk[..|chunk|] == chunk;
    }

    method EndStream()
      modifies this
      ensures Abs() == Flush(classify, old(Abs()))
    {
      if !skip && |partial| > 0 { ReadLine(partial); }
      partial := "";
      skip := false;
      EndBlock();
    }

    /** Whether a block ended since the last call. */
    method TakeClosed() returns (c: bool)
      modifies this`closed
      ensures c == old(closed) && !closed
    {
      c := closed;
      closed := false;
    }

    method EndBlock()
      modifies this
      ensures Abs() == old(Abs()).(block := CloseBlock(old(Abs()).block))
    {
      if open {
        open := false;
        closed := true;
      }
      state := Idle;
    }

    method ReadLine(raw: string)
      modifies this
      ensures Abs() == old(Abs()).(block := Line(classify, old(Abs()).block, raw))
    {
      var k := classify(raw);
      if k.Blank? { return; }
      if state != Idle && k.StorePath? {
        if state == InBuildList && |stats.derivations| < WARN_DERIVATION_NAMES {
          stats := stats.(derivations := stats.derivations + [k.name]);
        }
        return;
      }
      if k.BuildHeader? {
        stats := stats.(builds := stats.builds + k.count);
        state, open := InBuildList, true;
        return;
      }
      if k.FetchHeader? {
        stats := stats.(fetches := stats.fetches + k.count);
        if k.download.Some? {
          stats := stats.(download := stats.download + k.download.value, hasDownload := true);
        }
        state, open := InFetchList, true;
        return;
      }
      EndBlock();
    }
  }

  // ---------------------------------------------------------------- the tap

  predicate AtLineStart(text: string) {
    text == "" || text[|text| - 1] == '\n'
  }

  /** Passes the child's bytes on and may add one warning line. */
  class PlanTap {
    const parser: PlanParser
    const warnBuilds: int
    const warning: (Stats, int) -> string
    var dst: string                     // what the destination has received
    var atLineStart: bool
    var warned: bool
    var pending: bool
    ghost var child: string             // the child's bytes that the destination accepted
    ghost var at: nat                   // how many of them came before the warning
    ghost var told: Stats               // what the warning reported
    ghost var finished: bool

    /** The destination holds the child's bytes and at most one more line, put at a line start; when the
        stream ends in the middle of a line, that line is ended first. */
    ghost predicate Transparent()
      reads this
    {
      if !warned then dst == child
      else
        && at <= |child|
        && if AtLineStart(child[..at]) then dst == child[..at] + Warning() + child[at..]
           else finished && at == |child| && dst == child + "\n" + Warning()
    }

    ghost function Warning(): string
      reads this
    {
      warning(told, warnBuilds) + "\n"
    }

    /** A warning is out, or due, or still to be noticed, exactly when the plan is over the threshold. */
    ghost predicate Watching()
      reads this, parser
    {
      && (warned || pending ==> warnBuilds > 0 && parser.stats.builds > warnBuilds)
      && (warned ==> told.builds > warnBuilds)
      && (warnBuilds > 0 && !warned && !pending ==> Watched(parser.Abs().block, warnBuilds))
      && (warned ==> !pending)
    }

    /** The parser that has read the child's bytes, and was never asked whether a list had ended. */
    ghost function Reader(): Parser
      reads this, parser
    {
      FeedAll(parser.classify, Parser(START, "", false), child)
    }

    /** The warning goes out with the line that ends the list: at a line start, over the threshold and in no list,
        it is out. */
    ghost predicate Punctual()
      reads this, parser
    {
      var c, lines := parser.classify, EndedLines(child);
      warnBuilds > 0 && Sum(l => BuildsOf(c, l), lines) > warnBuilds && AtLineStart(child) && !InList(c, lines) ==>
        warned
    }

    ghost predicate Valid()
      reads this, parser
    {
      && Transparent() && Watching()
      && atLineStart == AtLineStart(child)
      && (!finished ==>
          && Same(parser.Abs(), Reader())
          && !parser.closed
          && (pending ==> !atLineStart && Reader().block.closed))
    }

    constructor (classify: Classify, warnBuilds: int, warning: (Stats, int) -> string)
      ensures Valid() && fresh(parser) && dst == child == "" && !finished
      ensures parser.classify == classify && this.warnBuilds == warnBuilds && this.warning == warning
    {
      parser := new PlanParser(classify);
      this.warnBuilds := warnBuilds;
      this.warning := warning;
      dst, atLineStart, warned, pending := "", true, false, false;
      child, at, told, finished := "", 0, START.stats, false;
    }

    /** The destination accepts the first taken bytes; those are observed. What it already holds stays, the
        bytes go behind it, and behind them the warning if it falls due. */
    method Write(p: string, taken: nat) returns (n: nat)
      requires Valid() && !finished && taken <= |p|
      modifies this, parser
      ensures Valid() && !finished && n == taken && child == old(child) + p[..n]
      ensures dst == old(dst) + p[..n] + Added(old(warned)) && WarnedOnce(old(warned), old(at), old(told))
      ensures !old(warned) && warned ==> AtLineStart(child) && at == |child|
      ensures OnlyAddition() && Punctual()
      ensures !old(warned) && warned ==>
        ListEnded(parser.classify, EndedLines(child)) && told == Lines(parser.classify, START, EndedLines(child)).stats
    {
      if taken > 0 {
        Accept(p[..taken]);
        Observe();
      } else {
        assert child + p[..taken] == child;
      }
      KeepsPromise();
      ParserKnows();
      return taken;
    }

    method Accept(p: string)
      requires Valid() && !finished && p != ""
      modifies this, parser
      ensures child == old(child) + p && finished == old(finished) && dst == old(dst) + p
      ensures warned == old(warned) && at == old(at) && told == old(told)
      ensures Transparent() && Watching() && atLineStart == AtLineStart(child)
      ensures Same(parser.Abs(), Reader()) && (pending || parser.closed ==> Reader().block.closed)
    {
      Passed(child, at, Warning(), p);
      ConcatAssociative(child, "", p);
      FeedConcat(parser.classify, Parser(START, "", false), child, p);
      SameFeed(parser.classify, parser.Abs(), FeedAll(parser.classify, Parser(START, "", false), child), p);
      FeedRises(parser.classify, parser.Abs(), p, warnBuilds);
      FeedRises(parser.classify, Reader(), p, warnBuilds);
      dst := dst + p;
      child := child + p;
      atLineStart := p[|p| - 1] == '\n';
      parser.Feed(p);
    }

    method Observe()
      requires Transparent() && Watching() && atLineStart == AtLineStart(child)
      modifies this, parser`closed
      ensures Transparent() && Watching() && atLineStart == AtLineStart(child)
      ensures child == old(child) && finished == old(finished) && !parser.closed && (pending ==> !atLineStart)
      ensures dst == old(dst) + Added(old(warned)) && WarnedOnce(old(warned), old(at), old(told))
      ensures !old(warned) && warned ==> atLineStart && at == |child| && told == parser.stats
      ensures pending || (warned && !old(warned)) ==> old(pending) || old(parser.closed)
    {
      var ended := parser.TakeClosed();
      if ended && !warned && warnBuilds > 0 && parser.stats.builds > warnBuilds {
        pending := true;
      }
      if pending && atLineStart {
        EmitWarning();
      }
    }

    /** At the end of the text so far. */
    method EmitWarning()
      requires !warned && warnBuilds > 0 && parser.stats.builds > warnBuilds
      requires dst == if AtLineStart(child) then child else child + "\n"
      requires AtLineStart(child) || finished
      modifies this
      ensures warned && !pending && told == parser.stats && Transparent()
      ensures dst == old(dst) + Warning() && at == |child|
      ensures child == old(child) && finished == old(finished) && atLineStart == old(atLineStart)
    {
      pending := false;
      warned := true;
      told := parser.stats;
      at := |child|;
      assert child[..at] == child && child[at..] == "";
      dst := dst + (warning(parser.stats, warnBuilds) + "\n");
    }

    /** The child has ended. Nothing but a warning that was still due is added, behind everything else, and
        before it a newline when the child's text ends in mid-line. So the warning line is the only addition
        unless just that happens. */
    method Finish()
      requires Valid() && !finished
      modifies this, parser
      ensures Valid() && finished && child == old(child)
      ensures warned <==> warnBuilds > 0 && parser.stats.builds > warnBuilds
      ensures parser.stats == FinalStats(parser.classify, child) && (!old(warned) && warned ==> told == parser.stats)
      ensures WarnedOnce(old(warned), old(at), old(told))
      ensures dst ==
        old(dst) + (if !old(warned) && warned && !AtLineStart(child) then "\n" else "") + Added(old(warned))
      ensures OnlyAddition() <==>
        !(warnBuilds > 0 && FinalStats(parser.classify, child).builds > warnBuilds
          && !old(warned) && !AtLineStart(child))
    {
      FinalBlock(parser.classify, child);
      SameFlush(parser.classify, parser.Abs(), FeedAll(parser.classify, Parser(START, "", false), child));
      FlushRises(parser.classify, parser.Abs(), warnBuilds);
      parser.EndStream();
      finished := true;
      Observe();
      if pending {
        if !atLineStart {
          dst := dst + "\n";
        }
        EmitWarning();
      }
      PromiseIff(old(warned));
    }

    /** What the tap itself appends when the warning goes out. */
    ghost function Added(before: bool): string
      reads this
    {
      if warned && !before then Warning() else ""
    }

    /** A warning that is out stays as it is. */
    ghost predicate WarnedOnce(before: bool, at0: nat, told0: Stats)
      reads this
    {
      before ==> warned && at == at0 && told == told0
    }

    /** What the tap promises: the child's bytes, and the warning line as the only addition. */
    ghost predicate OnlyAddition()
      reads this
    {
      if warned then OnlyAdds(child, Warning(), dst) else dst == child
    }

    /** Between two writes the parser knows what the lines say. */
    lemma ParserKnows()
      requires Valid() && !finished
      ensures Punctual()
      ensures Reader().block.closed <==> ListEnded(parser.classify, EndedLines(child))
      ensures parser.stats == Lines(parser.classify, START, EndedLines(child)).stats
    {
      ParserIsLineByLine(parser.classify, child);
      ListsAreSeen(parser.classify, EndedLines(child));
      StatsSumHeaders(parser.classify, EndedLines(child));
    }

    lemma KeepsPromise()
      requires Valid() && !finished
      ensures OnlyAddition()
    {
      if warned { assert dst == child[..at] + Warning() + child[at..]; }
    }

    lemma PromiseIff(before: bool)
      requires Transparent() && finished && |child| <= |dst| && (before ==> warned)
      requires before ==> AtLineStart(child[..at])
      requires !before && warned ==> at == |child|
      ensures OnlyAddition() <==> !(warned && !before && !AtLineStart(child))
    {
      if warned {
        assert child[..|child|] == child;
        if AtLineStart(child[..at]) { assert dst == child[..at] + Warning() + child[at..]; }
      }
    }
  }

  /** dst is text with one line put in at a line start. */
  ghost predicate OnlyAdds(text: string, line: string, dst: string) {
    exists k: nat :: k <= |text| && AtLineStart(text[..k]) && dst == text[..k] + line + text[k..]
  }

  function FinalStats(c: Classify, text: string): Stats {
    Lines(c, START, AllLines(text)).stats
  }

  lemma Passed(child: string, at: nat, line: string, p: string)
    ensures at <= |child| ==> (child + p)[..at] == child[..at]
    ensures at <= |child| ==> child[..at] + line + child[at..] + p == child[..at] + line + (child + p)[at..]
  {
    if at <= |child| {
      assert (child + p)[at..] == child[at..] + p;
    }
  }

  // ---------------------------------------------------------------- a stream that ends in mid-line

  lemma {:induction false} UnendedLine(text: string)
    requires forall b | b in text :: !LineEnd(b)
    ensures Tail(text) == text && EndedLines(text) == []
  {
    if text != "" { UnendedLine(text[..|text| - 1]); }
  }

  lemma OneLineStats(c: Classify, text: string)
    requires text != "" && |text| <= MAX_PLAN_LINE && forall b | b in text :: !LineEnd(b)
    ensures FinalStats(c, text) == Line(c, START, text).stats
  {
    UnendedLine(text);
    assert [] + [text] == [text] && [text][..0] == [];
    LinesSnoc(c, START, [], text);
  }

  /** For an unfinished header over the threshold the newline that the tap writes before its warning is a
      second addition. */
  method WarnsBehind(header: string, builds: nat, warning: string) returns (dst: string)
    requires header != "" && |header| <= MAX_PLAN_LINE && builds > 1 && forall b | b in header :: !LineEnd(b)
    ensures dst == header + "\n" + (warning + "\n") && !OnlyAdds(header, warning + "\n", dst)
  {
    var tap := new PlanTap(l => if l == header then BuildHeader(builds) else OtherText, 1, (s, n) => warning);
    dst := EndsUnwarned(tap, header, warning);
  }

  method EndsUnwarned(tap: PlanTap, header: string, warning: string) returns (dst: string)
    requires tap.Valid() && !tap.finished && tap.child == "" && tap.dst == "" && !tap.warned
    requires header != "" && |header| <= MAX_PLAN_LINE && forall b | b in header :: !LineEnd(b)
    requires Line(tap.parser.classify, START, header).stats.builds > tap.warnBuilds > 0
    requires forall s: Stats :: tap.warning(s, tap.warnBuilds) == warning
    modifies tap, tap.parser
    ensures dst == header + "\n" + (warning + "\n") && !OnlyAdds(header, warning + "\n", dst)
  {
    assert header[..|header|] == header && "" + header == header && header + "" == header;
    assert header[|header| - 1] in header;
    var taken := tap.Write(header, |header|);
    OneLineStats(tap.parser.classify, header);
    tap.Finish();
    assert tap.Warning() == warning + "\n";
    return tap.dst;
  }

  /** The same at an input. */
  method WarnsInMidLine() returns (dst: string)
    ensures dst == "these 2 derivations will be built:\ntoo many\n"
    ensures !OnlyAdds("these 2 derivations will be built:", "too many\n", dst)
  {
    dst := WarnsBehind("these 2 derivations will be built:", 2, "too many");
    assert "too many" + "\n" == "too many\n";
  }
}

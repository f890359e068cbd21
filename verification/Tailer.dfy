/**
 Following a growing log file, and why a run filtered live and a run filtered afterwards produce the
 same retained file.
 */
module Tailer {
  import opened Basics
  import opened Names
  import opened ResultLine
  import opened Retain

  const CHUNK := 256 * 1024
  const MAX_PARTIAL := 16 * 1024 * 1024
  const DEFAULT_MAX_BYTES := 256 * 1024 * 1024

  /** What a line counts toward the parse cap: nothing when the retained log drops it. */
  function Counted(line: string): nat {
    if RetainDrop(line) then 0 else |line| + 1
  }

  function CountedAll(lines: seq<string>): nat {
    if lines == [] then 0 else CountedAll(lines[..|lines| - 1]) + Counted(lines[|lines| - 1])
  }

  /** The lines delivered of a stream: a line is refused, and parsing stops for good, once the lines
      before it count max or more. */
  function Delivered(lines: seq<string>, max: nat): seq<string> {
    if lines == [] then []
    else
      var init := lines[..|lines| - 1];
      var d := Delivered(init, max);
      if d == init && CountedAll(d) < max then lines else d
  }

  lemma {:induction false} DeliveredIsPrefix(lines: seq<string>, max: nat)
    ensures Delivered(lines, max) <= lines
    ensures Delivered(lines, max) != lines ==> CountedAll(Delivered(lines, max)) >= max
  {
    if lines != [] {
      DeliveredIsPrefix(lines[..|lines| - 1], max);
    }
  }

  lemma DeliveredSnoc(lines: seq<string>, l: string, max: nat)
    ensures Delivered(lines + [l], max) ==
      if Delivered(lines, max) == lines && CountedAll(lines) < max then lines + [l] else Delivered(lines, max)
    ensures CountedAll(lines + [l]) == CountedAll(lines) + Counted(l)
  {
    assert (lines + [l])[..|lines|] == lines;
  }

  /** Once a line has been refused nothing more is delivered. */
  lemma {:induction false} CutStays(lines: seq<string>, more: seq<string>, max: nat)
    requires Delivered(lines, max) != lines
    ensures Delivered(lines + more, max) == Delivered(lines, max)
    decreases |more|
  {
    if more == [] {
      assert lines + more == lines;
    } else {
      var init, last := more[..|more| - 1], more[|more| - 1];
      CutStays(lines, init, max);
      assert lines + more == lines + init + [last];
      DeliveredSnoc(lines + init, last, max);
      DeliveredIsPrefix(lines, max);
    }
  }

  /** The count is the size of what the retained log keeps of the lines. */
  lemma {:induction false} CountIsKeptSize(lines: seq<string>)
    ensures CountedAll(lines) == |Unlines(Kept(lines))|
  {
    if lines != [] {
      var init, l := lines[..|lines| - 1], lines[|lines| - 1];
      CountIsKeptSize(init);
      assert lines == init + [l];
      KeptConcat(init, [l]);
      UnlinesConcat(Kept(init), Kept([l]));
      assert Kept([l]) == if RetainDrop(l) then [] else [l];
      assert Unlines([l]) == l + "\n" + Unlines([]);
    }
  }

  /** A line is delivered exactly when the retained log of the lines before it is still below the cap. */
  lemma {:induction false} DeliveredIff(lines: seq<string>, max: nat, i: nat)
    requires i < |lines|
    ensures i < |Delivered(lines, max)| <==> |Unlines(Kept(lines[..i]))| < max
    decreases |lines|
  {
    var init := lines[..|lines| - 1];
    DeliveredIsPrefix(init, max);
    CountIsKeptSize(lines[..i]);
    if i < |init| {
      DeliveredIff(init, max, i);
      assert init[..i] == lines[..i];
    } else {
      assert lines[..i] == init;
      if Delivered(init, max) != init {
        CountGrows(init, |Delivered(init, max)|);
        assert init[..|Delivered(init, max)|] == Delivered(init, max);
      }
    }
  }

  lemma {:induction false} CountGrows(lines: seq<string>, k: nat)
    requires k <= |lines|
    ensures CountedAll(lines[..k]) <= CountedAll(lines)
  {
    if k < |lines| {
      CountGrows(lines[..|lines| - 1], k);
      assert lines[..|lines| - 1][..k] == lines[..k];
    } else {
      assert lines[..k] == lines;
    }
  }

  // ---------------------------------------------------------------- line splitting across chunks

  /** The part of a stream up to and including its last newline. */
  function Finished(raw: string): string {
    raw[..|raw| - |RestOf(raw)|]
  }

  lemma RestAtNewline(raw: string)
    requires raw == "" || raw[|raw| - 1] == '\n'
    ensures RestOf(raw) == "" && Finished(raw) == raw
  {
  }

  lemma RestGrows(raw: string, c: char)
    requires c != '\n'
    ensures RestOf(raw + [c]) == RestOf(raw) + [c] && LinesOf(raw + [c]) == LinesOf(raw)
    ensures Finished(raw + [c]) == Finished(raw)
  {
    AppendByte(raw, c);
  }

  lemma {:induction false} RestIsSuffix(raw: string)
    ensures raw == Finished(raw) + RestOf(raw) && NoNewline(RestOf(raw))
    ensures RestOf(Finished(raw)) == "" && LinesOf(Finished(raw)) == LinesOf(raw)
  {
    if raw != "" && raw[|raw| - 1] != '\n' {
      var init, c := raw[..|raw| - 1], raw[|raw| - 1];
      RestIsSuffix(init);
      SplitLast(raw);
      RestGrows(init, c);
      ConcatAssociative(Finished(init), RestOf(init), [c]);
    } else {
      RestAtNewline(raw);
    }
  }

  lemma {:induction false} LinesGrow(a: string, b: string)
    ensures LinesOf(a) <= LinesOf(a + b)
    decreases |b|
  {
    if b == "" {
      assert a + b == a;
    } else {
      assert (a + b)[..|a + b| - 1] == a + b[..|b| - 1];
      LinesGrow(a, b[..|b| - 1]);
    }
  }

  /** Every complete line fits the buffer for unfinished lines. */
  ghost predicate Bounded(raw: string) {
    forall i | 0 <= i < |raw| && raw[i] == '\n' :: |RestOf(raw[..i])| <= MAX_PARTIAL
  }

  lemma BoundedPrefix(raw: string, n: nat)
    requires Bounded(raw) && n <= |raw|
    ensures Bounded(raw[..n])
  {
    forall i | 0 <= i < n && raw[..n][i] == '\n' ensures |RestOf(raw[..n][..i])| <= MAX_PARTIAL {
      assert raw[..n][..i] == raw[..i];
    }
  }

  lemma ShortIsBounded(raw: string)
    requires Short(raw)
    ensures Bounded(raw)
  {
  }

  lemma FirstEnd(raw: string, data: string, i: nat)
    requires Bounded(raw + data) && i < |data| && data[i] == '\n' && NoNewline(data[..i])
    ensures |RestOf(raw)| + i <= MAX_PARTIAL
  {
    assert (raw + data)[..|raw| + i] == raw + data[..i];
    assert (raw + data)[|raw| + i] == '\n';
    AppendFragment(raw, data[..i]);
  }

  /** An unfinished line that is already too long can no longer be finished. */
  lemma OverlongNeverEnds(raw: string, data: string)
    requires Bounded(raw + data) && |RestOf(raw)| > MAX_PARTIAL
    ensures NoNewline(data) && RestOf(raw + data) == RestOf(raw) + data && LinesOf(raw + data) == LinesOf(raw)
  {
    if '\n' in data {
      var i := FirstNewline(data);
      FirstEnd(raw, data, i);
      assert false;
    }
    AppendFragment(raw, data);
  }

  lemma {:induction false} FirstNewline(data: string) returns (i: nat)
    requires '\n' in data
    ensures i < |data| && data[i] == '\n' && NoNewline(data[..i])
  {
    if data[0] == '\n' {
      i := 0;
    } else {
      assert data == [data[0]] + data[1..];
      var j := FirstNewline(data[1..]);
      i := j + 1;
      assert data[..i] == [data[0]] + data[1..][..j];
    }
  }

  /** Between reads: exactly the delivered lines of the bytes read have been seen, however they were read. */
  ghost predicate Followed(
    consumed: string, seen: seq<string>, offset: nat, retained: nat, buf: string, truncated: bool, max: nat)
  {
    && offset == |consumed|
    && seen == Delivered(LinesOf(consumed), max)
    && retained == CountedAll(seen)
    && (truncated <==> seen != LinesOf(consumed))
    && (!truncated ==> buf == RestOf(consumed) || (NoNewline(buf) && |RestOf(consumed)| > MAX_PARTIAL))
  }

  /** While lines are delivered: everything up to done has been seen, the rest is buffered. */
  ghost predicate Midway(done: string, consumed: string, seen: seq<string>, retained: nat, buf: string, max: nat) {
    && done + buf == consumed && RestOf(done) == ""
    && seen == LinesOf(done) && Delivered(seen, max) == seen && retained == CountedAll(seen)
  }

  lemma StartLines(c: string, data: string, seen: seq<string>, retained: nat, buf: string, max: nat)
    requires Followed(c, seen, |c|, retained, buf, false, max) && buf == RestOf(c)
    ensures Midway(Finished(c), c + data, seen, retained, buf + data, max)
  {
    RestIsSuffix(c);
    ConcatAssociative(Finished(c), buf, data);
  }

  lemma EndLines(done: string, c: string, seen: seq<string>, retained: nat, buf: string, max: nat)
    requires Midway(done, c, seen, retained, buf, max) && NoNewline(buf)
    ensures Followed(c, seen, |c|, retained, buf, false, max) && buf == RestOf(c)
  {
    BufferIsRest(done, buf);
  }

  lemma StayOverlong(c: string, data: string, seen: seq<string>, retained: nat, buf: string, max: nat)
    requires Followed(c, seen, |c|, retained, buf, false, max) && |RestOf(c)| > MAX_PARTIAL && NoNewline(buf)
    requires Bounded(c + data)
    ensures NoNewline(buf + data)
    ensures Followed(c + data, seen, |c + data|, retained, buf + data, false, max)
    ensures |RestOf(c + data)| > MAX_PARTIAL
  {
    OverlongNeverEnds(c, data);
  }

  lemma StepLine(
    done: string, c: string, seen: seq<string>, retained: nat, buf: string, max: nat, i: nat, line: string)
    requires Midway(done, c, seen, retained, buf, max)
    requires i < |buf| && buf[i] == '\n' && NoNewline(buf[..i]) && line == StripCR(buf[..i])
    ensures line == "" ==> Midway(done + buf[..i] + "\n", c, seen, retained, buf[i + 1..], max)
    ensures line != "" && retained < max ==>
      Midway(done + buf[..i] + "\n", c, seen + [line], retained + Counted(line), buf[i + 1..], max)
    ensures line != "" && retained >= max ==> Followed(c, seen, |c|, retained, "", true, max)
  {
    var next := done + buf[..i] + "\n";
    LineDone(done, buf, i);
    DeliveredSnoc(seen, line, max);
    if line != "" && retained >= max {
      LinesGrow(next, buf[i + 1..]);
      Refused(seen, line, LinesOf(c), max);
    }
  }

  // ---------------------------------------------------------------- the tailer on values

  datatype State = State(offset: nat, retained: nat, buf: string, truncated: bool, seen: seq<string>)

  const START := State(0, 0, "", false, [])

  function NewlineAt(buf: string): (i: nat)
    requires '\n' in buf
    ensures i < |buf| && buf[i] == '\n' && NoNewline(buf[..i])
  {
    if buf[0] == '\n' then 0
    else
      assert buf == [buf[0]] + buf[1..];
      var i := 1 + NewlineAt(buf[1..]);
      assert buf[..i] == [buf[0]] + buf[1..][..i - 1];
      i
  }

  /** The first line that the buffer holds, and what follows it. */
  function FirstLine(buf: string): string
    requires '\n' in buf
  {
    StripCR(buf[..NewlineAt(buf)])
  }

  function Behind(buf: string): (rest: string)
    requires '\n' in buf
    ensures |rest| < |buf|
  {
    buf[NewlineAt(buf) + 1..]
  }

  /** Hand that line on, unless it is empty or the parse cap refuses it. */
  function DeliverOne(s: State, max: nat): (t: State)
    requires '\n' in s.buf
    ensures |t.buf| < |s.buf| && t.offset == s.offset && (s.truncated ==> t.truncated)
  {
    var line := FirstLine(s.buf);
    if line == "" then State(s.offset, s.retained, Behind(s.buf), s.truncated, s.seen)
    else if s.retained >= max then State(s.offset, s.retained, "", true, s.seen)
    else State(s.offset, s.retained + Counted(line), Behind(s.buf), s.truncated, s.seen + [line])
  }

  function Deliver(s: State, max: nat): (t: State)
    ensures t.offset == s.offset && (s.truncated ==> t.truncated)
    decreases |s.buf|
  {
    if '\n' in s.buf then Deliver(DeliverOne(s, max), max) else s
  }

  /** An unfinished line that has grown too long is given up. */
  function Trim(s: State): State {
    if |s.buf| > MAX_PARTIAL then s.(buf := "") else s
  }

  function Consumed(s: State, data: string, max: nat): State {
    if s.truncated then s
    else Trim(Deliver(State(s.offset, s.retained, s.buf + data, s.truncated, s.seen), max))
  }

  function AfterRead(s: State, data: string, max: nat): State {
    Consumed(State(s.offset + |data|, s.retained, s.buf, s.truncated, s.seen), data, max)
  }

  function AfterReads(s: State, parts: seq<string>, max: nat): State {
    if parts == [] then s else AfterRead(AfterReads(s, parts[..|parts| - 1], max), parts[|parts| - 1], max)
  }

  function Concat(parts: seq<string>): string {
    if parts == [] then "" else Concat(parts[..|parts| - 1]) + parts[|parts| - 1]
  }

  lemma ReadsSnoc(s: State, parts: seq<string>, data: string, max: nat)
    ensures AfterReads(s, parts + [data], max) == AfterRead(AfterReads(s, parts, max), data, max)
    ensures Concat(parts + [data]) == Concat(parts) + data
  {
    assert (parts + [data])[..|parts|] == parts;
  }

  lemma {:induction false} OffsetsAdd(s: State, parts: seq<string>, max: nat)
    ensures AfterReads(s, parts, max).offset == s.offset + |Concat(parts)|
  {
    if parts != [] { OffsetsAdd(s, parts[..|parts| - 1], max); }
  }

  /** A file that has become shorter than what was read is read from its start. */
  function Restart(s: State, file: string): State {
    if |file| < s.offset then s.(offset := 0, buf := "") else s
  }

  /** A poll: some reads of what follows, in order, and past the parse cap a jump to the end. */
  ghost predicate Polled(s0: State, file: string, parts: seq<string>, s1: State, max: nat) {
    var s := Restart(s0, file);
    var r := AfterReads(s, parts, max);
    && s.offset + |Concat(parts)| <= |file| && Concat(parts) == file[s.offset..s.offset + |Concat(parts)|]
    && (s1 == r || (r.truncated && s1 == r.(offset := |file|, buf := "")))
  }

  /** Inside a poll that started at s. */
  ghost predicate Polling(s: State, file: string, parts: seq<string>, now: State, max: nat) {
    && now == AfterReads(s, parts, max)
    && s.offset <= now.offset <= |file| && Concat(parts) == file[s.offset..now.offset]
  }

  lemma PollingNext(s: State, file: string, parts: seq<string>, now: State, data: string, max: nat)
    requires Polling(s, file, parts, now, max)
    requires now.offset + |data| <= |file| && data == file[now.offset..now.offset + |data|]
    ensures Polling(s, file, parts + [data], AfterRead(now, data, max), max)
  {
    ReadsSnoc(s, parts, data, max);
    OffsetMoves(now, data, max);
    NextSlice(file, s.offset, now.offset, |data|);
  }

  lemma OffsetMoves(s: State, data: string, max: nat)
    ensures AfterRead(s, data, max).offset == s.offset + |data|
  {
  }

  lemma NextSlice(file: string, start: nat, offset: nat, n: nat)
    requires start <= offset <= offset + n <= |file|
    ensures file[start..offset] + file[offset..offset + n] == file[start..offset + n]
  {
  }

  // ---------------------------------------------------------------- what is delivered

  /** After the bytes c exactly the delivered lines of c have been seen, however they were read. */
  ghost predicate Follows(s: State, c: string, max: nat) {
    Followed(c, s.seen, s.offset, s.retained, s.buf, s.truncated, max)
  }

  lemma OneFollows(s: State, c: string, done: string, max: nat)
    requires Midway(done, c, s.seen, s.retained, s.buf, max) && !s.truncated && s.offset == |c| && '\n' in s.buf
    ensures DeliverOne(s, max).truncated ==> Follows(DeliverOne(s, max), c, max) && DeliverOne(s, max).buf == ""
    ensures var t := DeliverOne(s, max);
      !t.truncated ==> Midway(done + s.buf[..NewlineAt(s.buf)] + "\n", c, t.seen, t.retained, t.buf, max)
  {
    var i, line := NewlineAt(s.buf), FirstLine(s.buf);
    StepLine(done, c, s.seen, s.retained, s.buf, max, i, line);
    OneIs(s, max, line, s.buf[i + 1..]);
  }

  lemma OneIs(s: State, max: nat, line: string, rest: string)
    requires '\n' in s.buf && line == FirstLine(s.buf) && rest == Behind(s.buf)
    ensures DeliverOne(s, max) ==
      if line == "" then State(s.offset, s.retained, rest, s.truncated, s.seen)
      else if s.retained >= max then State(s.offset, s.retained, "", true, s.seen)
      else State(s.offset, s.retained + Counted(line), rest, s.truncated, s.seen + [line])
  {
  }

  lemma {:induction false} DeliverFollows(s: State, c: string, done: string, max: nat)
    requires Midway(done, c, s.seen, s.retained, s.buf, max) && !s.truncated && s.offset == |c|
    ensures var t := Deliver(s, max); Follows(t, c, max) && (!t.truncated ==> t.buf == RestOf(c))
    decreases |s.buf|
  {
    if '\n' in s.buf {
      OneFollows(s, c, done, max);
      var t := DeliverOne(s, max);
      if !t.truncated { DeliverFollows(t, c, done + s.buf[..NewlineAt(s.buf)] + "\n", max); }
    } else {
      EndLines(done, c, s.seen, s.retained, s.buf, max);
    }
  }

  lemma TrimFollows(s: State, c: string, max: nat)
    requires Follows(s, c, max) && (!s.truncated ==> s.buf == RestOf(c) || |RestOf(c)| > MAX_PARTIAL)
    ensures Follows(Trim(s), c, max)
  {
  }

  lemma ReadCut(s: State, c: string, data: string, max: nat)
    requires Follows(s, c, max) && s.truncated
    ensures Follows(AfterRead(s, data, max), c + data, max)
  {
    LinesGrow(c, data);
    StillCut(c, c + data, max);
  }

  lemma AfterReadIs(s: State, data: string, max: nat, t: State)
    requires !s.truncated && t == State(s.offset + |data|, s.retained, s.buf + data, s.truncated, s.seen)
    ensures AfterRead(s, data, max) == Trim(Deliver(t, max))
    ensures NoNewline(t.buf) ==> Deliver(t, max) == t
  {
  }

  lemma ReadFollows(s: State, c: string, data: string, max: nat)
    requires Follows(s, c, max) && Bounded(c + data)
    ensures Follows(AfterRead(s, data, max), c + data, max)
  {
    if s.truncated {
      ReadCut(s, c, data, max);
    } else {
      var t := State(s.offset + |data|, s.retained, s.buf + data, s.truncated, s.seen);
      AfterReadIs(s, data, max, t);
      if s.buf == RestOf(c) {
        StartLines(c, data, s.seen, s.retained, s.buf, max);
        DeliverFollows(t, c + data, Finished(c), max);
        TrimFollows(Deliver(t, max), c + data, max);
      } else {
        StayOverlong(c, data, s.seen, s.retained, s.buf, max);
        TrimFollows(t, c + data, max);
      }
    }
  }

  lemma {:induction false} ReadsFollow(s: State, c: string, parts: seq<string>, max: nat)
    requires Follows(s, c, max) && Bounded(c + Concat(parts))
    ensures Follows(AfterReads(s, parts, max), c + Concat(parts), max)
  {
    if parts == [] {
      assert c + "" == c;
    } else {
      var init, data := parts[..|parts| - 1], parts[|parts| - 1];
      var all := c + Concat(parts);
      assert all == c + Concat(init) + data;
      assert all[..|c + Concat(init)|] == c + Concat(init);
      BoundedPrefix(all, |c + Concat(init)|);
      ReadsFollow(s, c, init, max);
      ReadFollows(AfterReads(s, init, max), c + Concat(init), data, max);
    }
  }

  /** A poll of a file that still begins with the bytes read: nothing is lost, and it never goes back. */
  lemma PollFollows(s0: State, c: string, file: string, parts: seq<string>, s1: State, max: nat)
    requires Follows(s0, c, max) && c <= file && Bounded(file) && Polled(s0, file, parts, s1, max)
    ensures s0.offset <= s1.offset <= |file| && Follows(s1, file[..s1.offset], max)
  {
    var all := c + Concat(parts);
    assert all == file[..|all|];
    BoundedPrefix(file, |all|);
    ReadsFollow(s0, c, parts, max);
    OffsetsAdd(s0, parts, max);
    var r := AfterReads(s0, parts, max);
    if s1 != r {
      assert file == all + file[|all|..] && file[..|file|] == file;
      LinesGrow(all, file[|all|..]);
      StillCut(all, file, max);
    }
  }

  // A state that has seen some lines before this file began.
  function After(s: State, base: seq<string>, counted: nat): State {
    State(s.offset, counted + s.retained, s.buf, s.truncated, base + s.seen)
  }

  /** What is left of the parse cap. */
  function LeftOf(max: nat, counted: nat): nat {
    if counted < max then max - counted else 0
  }

  lemma AfterDeliverOne(s: State, base: seq<string>, counted: nat, max: nat)
    requires '\n' in s.buf
    ensures DeliverOne(After(s, base, counted), max) == After(DeliverOne(s, LeftOf(max, counted)), base, counted)
  {
    var line := FirstLine(s.buf);
    assert base + s.seen + [line] == base + (s.seen + [line]);
  }

  lemma {:induction false} AfterDeliver(s: State, base: seq<string>, counted: nat, max: nat)
    ensures Deliver(After(s, base, counted), max) == After(Deliver(s, LeftOf(max, counted)), base, counted)
    decreases |s.buf|
  {
    if '\n' in s.buf {
      AfterDeliverOne(s, base, counted, max);
      AfterDeliver(DeliverOne(s, LeftOf(max, counted)), base, counted, max);
    }
  }

  lemma AfterOneRead(s: State, base: seq<string>, counted: nat, data: string, max: nat)
    ensures AfterRead(After(s, base, counted), data, max) ==
      After(AfterRead(s, data, LeftOf(max, counted)), base, counted)
  {
    if !s.truncated {
      var t := State(s.offset + |data|, s.retained, s.buf + data, s.truncated, s.seen);
      AfterReadIs(s, data, LeftOf(max, counted), t);
      AfterReadIs(After(s, base, counted), data, max, After(t, base, counted));
      AfterDeliver(t, base, counted, max);
    }
  }

  lemma {:induction false} AfterAllReads(s: State, base: seq<string>, counted: nat, parts: seq<string>, max: nat)
    ensures AfterReads(After(s, base, counted), parts, max) ==
      After(AfterReads(s, parts, LeftOf(max, counted)), base, counted)
  {
    if parts != [] {
      var init := parts[..|parts| - 1];
      AfterAllReads(s, base, counted, init, max);
      AfterOneRead(AfterReads(s, init, LeftOf(max, counted)), base, counted, parts[|parts| - 1], max);
    }
  }

  lemma NothingFollows(max: nat)
    ensures Follows(START, "", max)
  {
  }

  /** A poll of a file that has become shorter reads it from its start, as if it were new: behind the lines seen
      before come its own, with what is left of the parse cap. */
  lemma ShrunkFileIsReadAnew(s0: State, file: string, parts: seq<string>, s1: State, max: nat)
    requires |file| < s0.offset && !s0.truncated && Bounded(file) && Polled(s0, file, parts, s1, max)
    ensures s1.offset <= |file|
    ensures s1.seen == s0.seen + Delivered(LinesOf(file[..s1.offset]), LeftOf(max, s0.retained))
  {
    var left := LeftOf(max, s0.retained);
    var r := AfterReads(START, parts, left);
    assert s0.seen + [] == s0.seen;
    assert Restart(s0, file) == After(START, s0.seen, s0.retained);
    AfterAllReads(START, s0.seen, s0.retained, parts, max);
    var t := if s1 == After(r, s0.seen, s0.retained) then r else r.(offset := |file|, buf := "");
    assert s1 == After(t, s0.seen, s0.retained);
    NothingFollows(left);
    assert file[0..|Concat(parts)|] == file[START.offset..START.offset + |Concat(parts)|];
    PollFollows(START, "", file, parts, t, left);
  }

  lemma PollEnds(s0: State, file: string, parts: seq<string>, s1: State, max: nat)
    requires Polled(s0, file, parts, s1, max)
    ensures Restart(s0, file).offset <= s1.offset <= |file|
  {
    OffsetsAdd(Restart(s0, file), parts, max);
  }

  lemma StartFollows(max: nat)
    ensures Follows(START, "", max)
  {
  }

  /** A file as it is found at one time after the other, when it only grows. */
  ghost predicate Grows(c: string, snapshots: seq<string>) {
    && (forall i | 0 <= i < |snapshots| :: c <= snapshots[i])
    && (forall i, j | 0 <= i < j < |snapshots| :: snapshots[i] <= snapshots[j])
  }

  ghost predicate AllBounded(snapshots: seq<string>) {
    forall i | 0 <= i < |snapshots| :: Bounded(snapshots[i])
  }

  /** What is found earlier is a beginning of the file, and its lines are no longer. */
  lemma GrowsInit(c: string, snapshots: seq<string>, file: string)
    requires Grows(c, snapshots + [file])
    ensures Grows(c, snapshots) && c <= file && forall i | 0 <= i < |snapshots| :: snapshots[i] <= file
    ensures Bounded(file) ==> AllBounded(snapshots)
  {
    var all := snapshots + [file];
    assert all[|snapshots|] == file;
    forall i | 0 <= i < |snapshots| ensures snapshots[i] <= file && (Bounded(file) ==> Bounded(snapshots[i])) {
      assert all[i] == snapshots[i];
      assert file[..|snapshots[i]|] == snapshots[i];
      if Bounded(file) { BoundedPrefix(file, |snapshots[i]|); }
    }
    forall i, j | 0 <= i < j < |snapshots| ensures snapshots[i] <= snapshots[j] {
      assert all[i] == snapshots[i] && all[j] == snapshots[j];
    }
    forall i | 0 <= i < |snapshots| ensures c <= snapshots[i] { assert all[i] == snapshots[i]; }
  }

  /** Any two ways to cut a log into reads deliver the same lines and stop at the same one. */
  lemma ReadsDoNotShow(a: seq<string>, b: seq<string>, max: nat)
    requires Concat(a) == Concat(b) && Bounded(Concat(a))
    ensures var s, t := AfterReads(START, a, max), AfterReads(START, b, max);
      s.seen == t.seen == Delivered(LinesOf(Concat(a)), max) && s.offset == t.offset
      && s.retained == t.retained && s.truncated == t.truncated
  {
    assert "" + Concat(a) == Concat(a);
    assert RestOf("") == "" && LinesOf("") == [];
    ReadsFollow(START, "", a, max);
    ReadsFollow(START, "", b, max);
  }

  // ---------------------------------------------------------------- a line that is too long

  /** The lines delivered of a log are the same for all ways to read it. */
  ghost predicate SameForAllReads(raw: string, max: nat) {
    forall a, b | Concat(a) == raw && Concat(b) == raw ::
      AfterReads(START, a, max).seen == AfterReads(START, b, max).seen
  }

  /** x read byte by byte. */
  function Bytes(x: string): seq<string> {
    if x == "" then [] else Bytes(x[..|x| - 1]) + [[x[|x| - 1]]]
  }

  /** Without a newline a read only adds to the buffer, which never holds more than the limit. */
  lemma ReadByte(s: State, c: char, max: nat)
    requires c != '\n' && Buffering(s)
    ensures var t := AfterRead(s, [c], max);
      Buffering(t) && (|s.buf| < MAX_PARTIAL ==> t.buf == s.buf + [c]) && (t.buf != "" ==> t.buf[|t.buf| - 1] == c)
  {
  }

  /** Nothing has been delivered yet. */
  predicate Buffering(s: State) {
    s.retained == 0 && !s.truncated && s.seen == [] && NoNewline(s.buf) && |s.buf| <= MAX_PARTIAL
  }

  lemma {:induction false} BytesConcat(x: string)
    ensures Concat(Bytes(x)) == x
    decreases |x|
  {
    if x != "" {
      var init, c := x[..|x| - 1], x[|x| - 1];
      BytesConcat(init);
      assert x == init + [c];
      ReadsSnoc(START, Bytes(init), [c], 0);
    }
  }

  lemma {:induction false} BytesInBuffer(x: string, max: nat) returns (s: State)
    requires NoNewline(x)
    ensures s == AfterReads(START, Bytes(x), max) && Buffering(s) && (|x| <= MAX_PARTIAL ==> s.buf == x)
    ensures s.buf != "" ==> x != "" && s.buf[|s.buf| - 1] == x[|x| - 1]
    decreases |x|
  {
    if x == "" {
      s := START;
    } else {
      var init, c := x[..|x| - 1], x[|x| - 1];
      assert x == init + [c] && c in x;
      var before := BytesInBuffer(init, max);
      ReadsSnoc(START, Bytes(init), [c], max);
      ReadByte(before, c, max);
      s := AfterRead(before, [c], max);
    }
  }

  lemma OneLineLeft(line: string, s: State, max: nat)
    requires NoNewline(line) && s.buf == line + "\n" && !s.truncated && s.seen == [] && s.retained == 0 && max > 0
    ensures Deliver(s, max).seen == Cleaned(line)
  {
    assert s.buf[..|line|] == line && s.buf[|line|] == '\n' && s.buf[|line| + 1..] == "";
    FirstNewlineIs(s.buf, |line|);
    var t := DeliverOne(s, max);
    assert t.buf == "" && [] + [StripCR(line)] == [StripCR(line)];
    assert Deliver(t, max) == t;
  }

  /** A read that ends the first line. */
  lemma ReadEnds(s: State, x: string, line: string, max: nat)
    requires s.buf + x == line + "\n" && NoNewline(line) && Buffering(s) && max > 0
    ensures AfterRead(s, x, max).seen == Cleaned(line)
  {
    ReadDelivers(s, x, max);
    OneLineLeft(line, State(s.offset + |x|, s.retained, s.buf + x, s.truncated, s.seen), max);
  }

  lemma ReadDelivers(s: State, x: string, max: nat)
    requires !s.truncated
    ensures AfterRead(s, x, max).seen ==
      Deliver(State(s.offset + |x|, s.retained, s.buf + x, s.truncated, s.seen), max).seen
  {
  }

  lemma EndWithTheRest(line: string, max: nat) returns (a: seq<string>)
    requires NoNewline(line) && |line| > MAX_PARTIAL && max > 0
    ensures Concat(a) == line + "\n" && AfterReads(START, a, max).seen == Cleaned(line)
  {
    var head, tail := line[..MAX_PARTIAL], line[MAX_PARTIAL..] + "\n";
    assert line == head + line[MAX_PARTIAL..];
    var s := BytesInBuffer(head, max);
    a := Bytes(head) + [tail];
    ReadsSnoc(START, Bytes(head), tail, max);
    BytesConcat(head);
    assert head + tail == line + "\n";
    ReadEnds(s, tail, line, max);
  }

  /** A shorter line that ends alike is cleaned to something else. */
  lemma CleanedIsShorter(x: string, line: string)
    requires |x| < |line| && (x != "" ==> x[|x| - 1] == line[|line| - 1])
    ensures StripCR(line) != "" ==> StripCR(line) !in Cleaned(x)
  {
  }

  lemma EndAlone(line: string, max: nat) returns (b: seq<string>)
    requires NoNewline(line) && |line| > MAX_PARTIAL && max > 0
    ensures Concat(b) == line + "\n" && StripCR(line) !in AfterReads(START, b, max).seen
  {
    var s := BytesInBuffer(line, max);
    b := Bytes(line) + ["\n"];
    ReadsSnoc(START, Bytes(line), "\n", max);
    BytesConcat(line);
    ReadEnds(s, "\n", s.buf, max);
    CleanedIsShorter(s.buf, line);
  }

  lemma TooLongShows(line: string, max: nat)
    requires NoNewline(line) && |line| > MAX_PARTIAL && max > 0
    ensures !SameForAllReads(line + "\n", max)
  {
    var a := EndWithTheRest(line, max);
    var b := EndAlone(line, max);
    assert StripCR(line) in Cleaned(line);
    assert AfterReads(START, a, max).seen != AfterReads(START, b, max).seen;
  }

  /** Whether the reads show depends on the length alone: a line that is one byte longer than the buffer for
      unfinished lines is delivered when a single read brings its end, and lost when its end comes alone. */
  lemma ReadsShowIffTooLong(line: string, max: nat)
    requires NoNewline(line) && max > 0
    ensures SameForAllReads(line + "\n", max) <==> |line| <= MAX_PARTIAL
  {
    if |line| <= MAX_PARTIAL {
      var raw := line + "\n";
      OneLineBounded(line);
      forall a, b | Concat(a) == raw && Concat(b) == raw
        ensures AfterReads(START, a, max).seen == AfterReads(START, b, max).seen
      {
        ReadsDoNotShow(a, b, max);
      }
    } else {
      TooLongShows(line, max);
    }
  }

  lemma OneLineBounded(line: string)
    requires NoNewline(line) && |line| <= MAX_PARTIAL
    ensures Bounded(line + "\n")
  {
    var raw := line + "\n";
    forall i | 0 <= i < |raw| && raw[i] == '\n' ensures |RestOf(raw[..i])| <= MAX_PARTIAL {
      assert i == |line| && raw[..i] == line;
    }
  }

  // ---------------------------------------------------------------- the program

  /** Hands every line on and writes the retained ones. */
  class Handler {
    const w: Writer
    var seen: seq<string>    // what the next stage has received

    constructor (capBytes: int, room: Option<nat>)
      ensures fresh(w) && Valid() && seen == [] && w.max == EffectiveCap(capBytes) && w.room == room
    {
      w := new Writer(capBytes, room);
      seen := [];
    }

    ghost predicate Valid()
      reads this, w
    {
      w.Valid() && w.ideal == PutAll(EMPTY_OUT, w.max, Kept(seen))
    }

    method Line(line: string) returns (counted: nat)
      requires Valid()
      modifies this, w
      ensures Valid() && seen == old(seen) + [line] && counted == Counted(line)
    {
      KeptConcat(seen, [line]);
      PutAllConcat(EMPTY_OUT, w.max, Kept(seen), Kept([line]));
      PutAllOne(PutAll(EMPTY_OUT, w.max, Kept(seen)), w.max, [line]);
      seen := seen + [line];
      if RetainDrop(line) { return 0; }
      var written := w.WriteLine(line);
      return |line| + 1;
    }

    method Flush()
      requires Valid()
      modifies w
      ensures Valid() && w.file == Landed(w.ideal.text, w.room)
    {
      var err := w.Flush();
    }
  }

  /** Follows one file. */
  class Tailer {
    const h: Handler
    const maxBytes: nat
    var offset: nat
    var retained: nat
    var buf: string
    var truncated: bool

    ghost function Abs(): State
      reads this, h
    {
      State(offset, retained, buf, truncated, h.seen)
    }

    constructor (h: Handler, maxBytes: int)
      requires h.seen == []
      ensures Abs() == START && this.h == h
      ensures this.maxBytes == if maxBytes <= 0 then DEFAULT_MAX_BYTES else maxBytes
    {
      this.h := h;
      this.maxBytes := if maxBytes <= 0 then DEFAULT_MAX_BYTES else maxBytes;
      offset, retained, buf, truncated := 0, 0, "", false;
    }

    /** Past the parse cap nothing is handed on any more, and parsing stops for good. */
    method HandOn(line: string)
      requires h.Valid() && !truncated
      modifies this`buf, this`retained, this`truncated, h, h.w
      ensures h.Valid() && truncated == (old(retained) >= maxBytes)
      ensures if truncated
        then h.seen == old(h.seen) && retained == old(retained) && buf == ""
        else h.seen == old(h.seen) + [line] && retained == old(retained) + Counted(line) && buf == old(buf)
    {
      if retained >= maxBytes {
        truncated, buf := true, "";
        return;
      }
      var counted := h.Line(line);
      retained := retained + counted;
    }

    /** Take one line off the buffer and hand it on, unless the parse cap refuses it. */
    method DeliverNext()
      requires h.Valid() && !truncated && '\n' in buf
      modifies this`buf, this`retained, this`truncated, h, h.w
      ensures h.Valid() && Abs() == DeliverOne(old(Abs()), maxBytes)
    {
      var i := IndexByte(buf);
      var line := StripCR(buf[..i]);
      buf := buf[i + 1..];
      if |line| > 0 {
        HandOn(line);
      }
    }

    /** Deliver the lines that data completes. */
    method Consume(data: string)
      requires h.Valid()
      modifies this`buf, this`retained, this`truncated, h, h.w
      ensures h.Valid() && Abs() == Consumed(old(Abs()), data, maxBytes)
    {
      if truncated { return; }
      buf := buf + data;
      ghost var goal := Deliver(Abs(), maxBytes);
      while '\n' in buf
        invariant h.Valid() && ('\n' in buf ==> !truncated)
        invariant Deliver(Abs(), maxBytes) == goal
        decreases |buf|
      {
        DeliverNext();
      }
      if |buf| > MAX_PARTIAL { buf := ""; }
    }

    /** One read of what is left: all that was asked for, or an error after some of it, or nothing. */
    method ReadChunk(file: string) returns (data: string, failed: bool)
      requires h.Valid() && offset < |file|
      modifies this, h, h.w
      ensures h.Valid() && old(offset) + |data| <= |file| && data == file[old(offset)..old(offset) + |data|]
      ensures if data == "" then failed && Abs() == old(Abs()) else Abs() == AfterRead(old(Abs()), data, maxBytes)
    {
      var want := if |file| - offset < CHUNK then |file| - offset else CHUNK;
      failed := *;
      var got: nat :| got <= want && (failed || got == want);
      data := file[offset..offset + got];
      if got > 0 {
        offset := offset + got;
        Consume(data);
      }
    }

    method ReadRest(file: string) returns (stop: bool, ghost parts: seq<string>)
      requires h.Valid() && offset <= |file|
      modifies this, h, h.w
      ensures h.Valid() && Polling(old(Abs()), file, parts, Abs(), maxBytes)
      ensures stop || truncated || offset == |file|
    {
      stop, parts := false, [];
      while !stop && offset < |file| && !truncated
        invariant h.Valid() && Polling(old(Abs()), file, parts, Abs(), maxBytes)
        decreases !stop, |file| - offset
      {
        ghost var was := Abs();
        var data;
        data, stop := ReadChunk(file);
        if data != "" {
          PollingNext(old(Abs()), file, parts, was, data, maxBytes);
          OffsetMoves(was, data, maxBytes);
          parts := parts + [data];
        }
      }
    }

    /** Read whatever has been appended; how many bytes were consumed. */
    method Poll(file: string) returns (n: nat, ghost failed: bool, ghost parts: seq<string>)
      requires h.Valid()
      modifies this, h, h.w
      ensures h.Valid() && h.w.file == Landed(h.w.ideal.text, h.w.room)
      ensures Polled(old(Abs()), file, parts, Abs(), maxBytes)
      ensures n == offset - Restart(old(Abs()), file).offset && (failed || offset == |file|)
    {
      if |file| < offset { offset, buf := 0, ""; }
      var start := offset;
      var stop;
      stop, parts := ReadRest(file);
      if !stop && offset < |file| {
        // Past the parse cap: skip what is there without parsing it.
        offset, buf := |file|, "";
      }
      h.Flush();
      return offset - start, stop, parts;
    }

    /** Any number of polls of whatever the file holds then. While it only grows, the returns sum to the
        offset gained, and what has been seen are the delivered lines of the bytes read. */
    method Follow(snapshots: seq<string>, ghost c: string) returns (total: nat, ghost d: string)
      requires h.Valid()
      modifies this, h, h.w
      ensures h.Valid()
      ensures Follows(old(Abs()), c, maxBytes) && Grows(c, snapshots) && AllBounded(snapshots) ==>
        c <= d && Follows(Abs(), d, maxBytes) && total == offset - old(offset)
        && (d == c || exists i :: 0 <= i < |snapshots| && d <= snapshots[i])
    {
      ghost var growing := Follows(Abs(), c, maxBytes) && Grows(c, snapshots) && AllBounded(snapshots);
      total, d := 0, c;
      for k := 0 to |snapshots|
        invariant h.Valid()
        invariant growing ==> c <= d && Follows(Abs(), d, maxBytes) && total == offset - old(offset)
        invariant growing ==> d == c || exists i :: 0 <= i < k && d <= snapshots[i]
        invariant growing ==> forall j | k <= j < |snapshots| :: d <= snapshots[j]
      {
        ghost var was := Abs();
        var n, _, parts := Poll(snapshots[k]);
        total := total + n;
        if growing {
          PollFollows(was, d, snapshots[k], parts, Abs(), maxBytes);
          d := snapshots[k][..offset];
        }
      }
    }

    /** The last drain, when the writer is gone: poll until nothing more comes. */
    method FinalDrain(file: string, ghost c: string) returns (ghost failed: bool)
      requires h.Valid()
      modifies this, h, h.w
      ensures h.Valid() && h.w.file == Landed(h.w.ideal.text, h.w.room)
      ensures offset <= |file| && (failed || offset == |file|)
      ensures Follows(old(Abs()), c, maxBytes) && c <= file && Bounded(file) ==>
        Follows(Abs(), file[..offset], maxBytes)
    {
      ghost var growing := Follows(Abs(), c, maxBytes) && c <= file && Bounded(file);
      var n: nat := 1;
      ghost var d := c;
      failed := true;
      while n > 0
        invariant h.Valid() && (growing ==> d <= file && Follows(Abs(), d, maxBytes))
        invariant n == 0 ==> h.w.file == Landed(h.w.ideal.text, h.w.room) && offset <= |file|
        invariant n == 0 ==> (failed || offset == |file|) && (growing ==> d == file[..offset])
        decreases |file| < offset, n > 0, |file| - offset
      {
        ghost var was, parts := Abs(), [];
        n, failed, parts := Poll(file);
        PollEnds(was, file, parts, Abs(), maxBytes);
        if growing {
          PollFollows(was, d, file, parts, Abs(), maxBytes);
          d := file[..offset];
        }
      }
    }

    /** A whole run. While the file only grows, and unless a read fails, it leaves, byte for byte, the file
        that the offline filter makes of the raw file on the same disk, provided the parse cap is no smaller
        than the retained cap. */
    method Run(snapshots: seq<string>, file: string) returns (ghost failed: bool)
      requires h.Valid()
      modifies this, h, h.w
      ensures h.Valid() && offset <= |file| && (failed || offset == |file|)
      ensures old(Abs()) == START && Grows("", snapshots + [file]) && Bounded(file) ==>
        Follows(Abs(), file[..offset], maxBytes)
      ensures old(Abs()) == START && Grows("", snapshots + [file]) && Short(file) && !failed && h.w.max <= maxBytes ==>
        h.w.file == FinalText(file, h.w.max, Faults(h.w.room, None, false))
    {
      ghost var growing := Abs() == START && Grows("", snapshots + [file]);
      StartFollows(maxBytes);
      if growing { GrowsInit("", snapshots, file); }
      if Short(file) { ShortIsBounded(file); }
      ghost var total, d;
      total, d := Follow(snapshots, "");
      failed := FinalDrain(file, d);
      if growing && Short(file) && !failed && h.w.max <= maxBytes {
        assert file[..|file|] == file;
        LiveEqualsOffline(Abs(), file, file, h.w.max, maxBytes);
      }
    }
  }

  lemma LineDone(done: string, buf: string, i: nat)
    requires RestOf(done) == "" && i < |buf| && buf[i] == '\n' && NoNewline(buf[..i])
    ensures var next := done + buf[..i] + "\n";
      && next + buf[i + 1..] == done + buf
      && RestOf(next) == "" && LinesOf(next) == LinesOf(done) + Cleaned(buf[..i])
  {
    AppendLine(done, buf[..i]);
    assert "" + buf[..i] == buf[..i];
    Rejoin(done, buf, i);
  }

  lemma Rejoin(done: string, buf: string, i: nat)
    requires i < |buf| && buf[i] == '\n'
    ensures done + buf[..i] + "\n" + buf[i + 1..] == done + buf
  {
    assert buf == buf[..i] + "\n" + buf[i + 1..];
  }

  lemma BufferIsRest(done: string, buf: string)
    requires RestOf(done) == "" && NoNewline(buf)
    ensures RestOf(done + buf) == buf && LinesOf(done + buf) == LinesOf(done)
  {
    AppendFragment(done, buf);
    assert "" + buf == buf;
  }

  method IndexByte(buf: string) returns (i: nat)
    requires '\n' in buf
    ensures i == NewlineAt(buf)
  {
    i := 0;
    while buf[i] != '\n'
      invariant i < |buf| && NoNewline(buf[..i]) && '\n' in buf[i..]
      decreases |buf| - i
    {
      assert buf[..i + 1] == buf[..i] + [buf[i]];
      assert buf[i..] == [buf[i]] + buf[i + 1..];
      i := i + 1;
    }
    FirstNewlineIs(buf, i);
  }

  lemma FirstNewlineIs(buf: string, i: nat)
    requires i < |buf| && buf[i] == '\n' && NoNewline(buf[..i])
    ensures NewlineAt(buf) == i
  {
    InPrefix(buf, i, NewlineAt(buf));
    InPrefix(buf, NewlineAt(buf), i);
  }

  lemma InPrefix(buf: string, k: nat, i: nat)
    ensures k < i <= |buf| ==> buf[k] in buf[..i]
  {
    if k < i <= |buf| { assert buf[..i][k] == buf[k]; }
  }

  lemma Refused(lines: seq<string>, line: string, all: seq<string>, max: nat)
    requires Delivered(lines, max) == lines && CountedAll(lines) >= max && lines + [line] <= all
    ensures Delivered(all, max) == lines && all != lines
  {
    DeliveredSnoc(lines, line, max);
    CutStays(lines + [line], all[|lines| + 1..], max);
    assert all == lines + [line] + all[|lines| + 1..];
  }

  lemma StillCut(was: string, file: string, max: nat)
    requires LinesOf(was) <= LinesOf(file) && Delivered(LinesOf(was), max) != LinesOf(was)
    ensures Delivered(LinesOf(file), max) == Delivered(LinesOf(was), max) != LinesOf(file)
  {
    var a, b := LinesOf(was), LinesOf(file);
    assert b == a + b[|a|..];
    CutStays(a, b[|a|..], max);
    DeliveredIsPrefix(a, max);
  }

  // ---------------------------------------------------------------- live equals offline

  lemma {:induction false} CountedIsKeptSize(lines: seq<string>)
    ensures |Unlines(Kept(lines))| == CountedAll(lines)
  {
    if lines != [] {
      var init, last := lines[..|lines| - 1], lines[|lines| - 1];
      CountedIsKeptSize(init);
      assert lines == init + [last];
      KeptConcat(init, [last]);
      assert Kept([last]) == if RetainDrop(last) then [] else [last];
      if !RetainDrop(last) { UnlinesSnoc(Kept(init), last); } else { assert Kept(init) + [] == Kept(init); }
    }
  }

  lemma {:induction false} NoRoom(o: Out, cap: nat, lines: seq<string>)
    requires |o.text| >= cap
    ensures PutAll(o, cap, lines).text == o.text
    decreases lines
  {
    if lines != [] { NoRoom(Put(o, cap, lines[0]), cap, lines[1..]); }
  }

  /** What the parse cap withholds could not have been written anyway. */
  lemma WithheldLinesDoNotFit(lines: seq<string>, cap: nat, max: nat)
    requires cap <= max
    ensures PutAll(EMPTY_OUT, cap, Kept(Delivered(lines, max))).text == PutAll(EMPTY_OUT, cap, Kept(lines)).text
  {
    var d := Delivered(lines, max);
    DeliveredIsPrefix(lines, max);
    if d != lines {
      var rest := lines[|d|..];
      assert lines == d + rest;
      KeptConcat(d, rest);
      PutAllConcat(EMPTY_OUT, cap, Kept(d), Kept(rest));
      CountedIsKeptSize(d);
      var k := CappedFileIsLongestPrefix(cap, Kept(d));
      var o := PutAll(EMPTY_OUT, cap, Kept(d));
      if o.full {
        FullStays(o, cap, Kept(rest));
      } else {
        assert Kept(d)[..k] == Kept(d);
        NoRoom(o, cap, Kept(rest));
      }
    }
  }

  /** A run filtered live and a run filtered from the raw file afterwards give the same file, byte for
      byte, whenever the live run has consumed every complete line and the parse cap is no smaller than
      the retained cap. */
  lemma LiveEqualsOffline(s: State, c: string, raw: string, cap: nat, max: nat)
    requires Follows(s, c, max) && c <= raw && LinesOf(c) == LinesOf(raw) && Short(raw) && cap <= max
    ensures PutAll(EMPTY_OUT, cap, Kept(s.seen)).text == Filtered(raw, cap).text
  {
    ShortLines(raw);
    WithheldLinesDoNotFit(LinesOf(raw), cap, max);
  }

  /** The limit of that is sharp. For a log of one line that the live run delivers in any case, and that is
      kept and fits, both runs give the same file exactly when the line with its newline has at most 16 MiB. */
  lemma OneLineLiveEqualsOffline(s: State, line: string, cap: nat, max: nat)
    requires NoNewline(line) && |line| <= MAX_PARTIAL && Follows(s, line + "\n", max) && max > 0
    requires StripCR(line) != "" && !RetainDrop(StripCR(line)) && |StripCR(line)| + 1 <= cap
    ensures PutAll(EMPTY_OUT, cap, Kept(s.seen)).text == Filtered(line + "\n", cap).text <==> |line| + 1 <= MAX_LINE
  {
    var l := StripCR(line);
    OneLine(line);
    OneIsDelivered(l, max);
    PutAllOne(EMPTY_OUT, cap, [l]);
    PutAllOne(EMPTY_OUT, cap, []);
    assert Put(EMPTY_OUT, cap, l).text == "" + l + "\n";
  }

  lemma OneIsDelivered(l: string, max: nat)
    requires max > 0
    ensures Delivered([l], max) == [l]
  {
    DeliveredSnoc([], l, max);
    assert [] + [l] == [l];
  }

  lemma OneLine(line: string)
    requires NoNewline(line)
    ensures LinesOf(line + "\n") == Cleaned(line)
    ensures LinesUpTo(line + "\n", MAX_LINE) == if |line| + 1 <= MAX_LINE then Cleaned(line) else []
  {
    AppendLine("", line);
    assert "" + line + "\n" == line + "\n" && "" + line == line;
    assert [] + Cleaned(line) == Cleaned(line);
  }
}

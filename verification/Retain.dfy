/** The retained log: a filtered copy of the raw log, cut at a byte cap, with no holes. */
module Retain {
  // Two programs produce it, the live handler and the offline filter; both are proved against the same functions of
  // the raw bytes. A raw log is a string of bytes; its lines end in newlines, and whatever follows the last newline
  // is an unfinished line. The functions below read a raw log from its end, so that appending bytes to it extends
  // their results.

  import opened Basics
  import opened Names
  import opened ResultLine

  const DEFAULT_CAP := 64 * 1024 * 1024
  const MAX_LINE := 16 * 1024 * 1024

  function EffectiveCap(cap: int): nat {
    if cap <= 0 then DEFAULT_CAP else cap
  }

  // ---------------------------------------------------------------- lines of a byte stream

  /** The bytes after the last newline. */
  function RestOf(raw: string): (r: string)
    ensures |r| <= |raw|
  {
    if raw == "" then ""
    else if raw[|raw| - 1] == '\n' then "" else RestOf(raw[..|raw| - 1]) + [raw[|raw| - 1]]
  }

  /** A raw line as it is handed on: one trailing carriage return stripped, empty lines dropped. */
  function Cleaned(line: string): seq<string> {
    var l := StripCR(line);
    if l == "" then [] else [l]
  }

  function StripCR(line: string): string {
    if line != "" && line[|line| - 1] == '\r' then line[..|line| - 1] else line
  }

  /** The complete non-empty lines, except those longer than limit, newline included. */
  function LinesUpTo(raw: string, limit: nat): seq<string> {
    if raw == "" then []
    else
      var init := raw[..|raw| - 1];
      LinesUpTo(init, limit) +
        if raw[|raw| - 1] == '\n' && |RestOf(init)| + 1 <= limit then Cleaned(RestOf(init)) else []
  }

  function LinesOf(raw: string): seq<string> {
    if raw == "" then []
    else LinesOf(raw[..|raw| - 1]) + if raw[|raw| - 1] == '\n' then Cleaned(RestOf(raw[..|raw| - 1])) else []
  }

  predicate NoNewline(s: string) {
    '\n' !in s
  }

  lemma AppendByte(raw: string, c: char)
    requires c != '\n'
    ensures RestOf(raw + [c]) == RestOf(raw) + [c] && LinesOf(raw + [c]) == LinesOf(raw)
    ensures LinesUpTo(raw + [c], MAX_LINE) == LinesUpTo(raw, MAX_LINE)
  {
    assert (raw + [c])[..|raw|] == raw;
  }

  lemma {:induction false} AppendFragment(raw: string, x: string)
    requires NoNewline(x)
    ensures RestOf(raw + x) == RestOf(raw) + x && LinesOf(raw + x) == LinesOf(raw)
    ensures LinesUpTo(raw + x, MAX_LINE) == LinesUpTo(raw, MAX_LINE)
    decreases |x|
  {
    if x == "" {
      assert raw + x == raw && RestOf(raw) + x == RestOf(raw);
    } else {
      var init, c := x[..|x| - 1], x[|x| - 1];
      assert x == init + [c] && c in x;
      AppendFragment(raw, init);
      AppendByte(raw + init, c);
      ConcatAssociative(raw, init, [c]);
      ConcatAssociative(RestOf(raw), init, [c]);
    }
  }

  lemma AppendLine(raw: string, x: string)
    requires NoNewline(x)
    ensures RestOf(raw + x + "\n") == "" && LinesOf(raw + x + "\n") == LinesOf(raw) + Cleaned(RestOf(raw) + x)
    ensures LinesUpTo(raw + x + "\n", MAX_LINE) ==
      LinesUpTo(raw, MAX_LINE) + if |RestOf(raw) + x| + 1 <= MAX_LINE then Cleaned(RestOf(raw) + x) else []
  {
    AppendFragment(raw, x);
    assert (raw + x + "\n")[..|raw + x|] == raw + x;
  }

  /** Every complete line fits in MAX_LINE, newline included. */
  ghost predicate Short(raw: string) {
    forall i | 0 <= i < |raw| && raw[i] == '\n' :: |RestOf(raw[..i])| + 1 <= MAX_LINE
  }

  lemma ShortPrefix(raw: string, n: nat)
    requires Short(raw) && n <= |raw|
    ensures Short(raw[..n])
  {
    forall i | 0 <= i < n && raw[..n][i] == '\n' ensures |RestOf(raw[..n][..i])| + 1 <= MAX_LINE {
      assert raw[..n][..i] == raw[..i];
    }
  }

  lemma {:induction false} ShortLines(raw: string)
    requires Short(raw)
    ensures LinesUpTo(raw, MAX_LINE) == LinesOf(raw)
  {
    if raw != "" {
      ShortPrefix(raw, |raw| - 1);
      ShortLines(raw[..|raw| - 1]);
    }
  }

  // ---------------------------------------------------------------- the capped file

  datatype Out = Out(text: string, full: bool)

  const EMPTY_OUT := Out("", false)

  function Put(o: Out, cap: nat, line: string): Out {
    if o.full then o
    else if |o.text| + |line| + 1 > cap then Out(o.text, true)
    else Out(o.text + line + "\n", false)
  }

  function PutAll(o: Out, cap: nat, lines: seq<string>): Out
    decreases lines
  {
    if lines == [] then o else PutAll(Put(o, cap, lines[0]), cap, lines[1..])
  }

  function Unlines(lines: seq<string>): string {
    if lines == [] then "" else lines[0] + "\n" + Unlines(lines[1..])
  }

  function Kept(lines: seq<string>): seq<string> {
    if lines == [] then [] else (if RetainDrop(lines[0]) then [] else [lines[0]]) + Kept(lines[1..])
  }

  lemma {:induction false} PutAllConcat(o: Out, cap: nat, a: seq<string>, b: seq<string>)
    ensures PutAll(o, cap, a + b) == PutAll(PutAll(o, cap, a), cap, b)
    decreases a
  {
    if a == [] {
      assert a + b == b;
    } else {
      assert (a + b)[1..] == a[1..] + b;
      PutAllConcat(Put(o, cap, a[0]), cap, a[1..], b);
    }
  }

  lemma {:induction false} KeptConcat(a: seq<string>, b: seq<string>)
    ensures Kept(a + b) == Kept(a) + Kept(b)
  {
    if a == [] {
      assert a + b == b;
    } else {
      assert (a + b)[1..] == a[1..] + b;
      KeptConcat(a[1..], b);
    }
  }

  lemma {:induction false} FullStays(o: Out, cap: nat, lines: seq<string>)
    requires o.full
    ensures PutAll(o, cap, lines) == o
  {
    if lines != [] { FullStays(o, cap, lines[1..]); }
  }

  /** How many of the lines fit: as many as possible, in order, with no hole. */
  ghost predicate Fits(lines: seq<string>, cap: nat, k: nat) {
    k <= |lines| && |Unlines(lines[..k])| <= cap && (k < |lines| ==> |Unlines(lines[..k + 1])| > cap)
  }

  lemma {:induction false} UnlinesSnoc(lines: seq<string>, l: string)
    ensures Unlines(lines + [l]) == Unlines(lines) + l + "\n"
  {
    if lines == [] {
      assert lines + [l] == [l] && Unlines([l][1..]) == "";
    } else {
      assert (lines + [l])[1..] == lines[1..] + [l];
      UnlinesSnoc(lines[1..], l);
    }
  }

  lemma {:induction false} PutAllFrom(cap: nat, lines: seq<string>, j: nat) returns (k: nat)
    requires j <= |lines| && |Unlines(lines[..j])| <= cap
    ensures j <= k && Fits(lines, cap, k)
    ensures PutAll(Out(Unlines(lines[..j]), false), cap, lines[j..]) == Out(Unlines(lines[..k]), k < |lines|)
    decreases |lines| - j
  {
    if j == |lines| {
      k := j;
    } else {
      PrefixNext(lines, j);
      UnlinesSnoc(lines[..j], lines[j]);
      assert lines[j..][1..] == lines[j + 1..];
      var o := Out(Unlines(lines[..j]), false);
      if |Unlines(lines[..j + 1])| <= cap {
        k := PutAllFrom(cap, lines, j + 1);
      } else {
        k := j;
        FullStays(Put(o, cap, lines[j]), cap, lines[j + 1..]);
      }
    }
  }

  /** The capped file holds the longest prefix of the lines that fits, and nothing else. */
  lemma CappedFileIsLongestPrefix(cap: nat, lines: seq<string>) returns (k: nat)
    ensures Fits(lines, cap, k)
    ensures PutAll(EMPTY_OUT, cap, lines) == Out(Unlines(lines[..k]), k < |lines|)
  {
    k := PutAllFrom(cap, lines, 0);
    assert lines[0..] == lines;
  }

  /** The kept lines of a raw log, whatever the cap. */
  function KeptText(raw: string): string {
    Unlines(Kept(LinesUpTo(raw, MAX_LINE)))
  }

  lemma {:induction false} UnlinesConcat(a: seq<string>, b: seq<string>)
    ensures Unlines(a + b) == Unlines(a) + Unlines(b)
  {
    if a == [] {
      assert a + b == b;
    } else {
      assert (a + b)[1..] == a[1..] + b;
      UnlinesConcat(a[1..], b);
      ConcatAssociative(a[0] + "\n", Unlines(a[1..]), Unlines(b));
    }
  }

  /** Everything kept is in the file exactly when all of it fits the cap. */
  lemma FitsTheCapIff(cap: nat, lines: seq<string>)
    ensures var o := PutAll(EMPTY_OUT, cap, lines);
      (o.full <==> |Unlines(lines)| > cap) && (!o.full ==> o.text == Unlines(lines))
  {
    var k := CappedFileIsLongestPrefix(cap, lines);
    if k < |lines| {
      assert lines == lines[..k + 1] + lines[k + 1..];
      UnlinesConcat(lines[..k + 1], lines[k + 1..]);
    } else {
      assert lines[..k] == lines;
    }
  }

  // ---------------------------------------------------------------- the writer

  /** What of a text reaches a disk that takes only so many bytes. */
  function Landed(text: string, room: Option<nat>): string {
    if Overflows(text, room) then text[..room.value] else text
  }

  predicate Overflows(text: string, room: Option<nat>) {
    room.Some? && room.value < |text|
  }

  lemma PutGrows(o: Out, cap: nat, line: string)
    ensures o.text <= Put(o, cap, line).text
  {
  }

  /** A longer text overflows the same disk with the same bytes. */
  lemma LandedPrefix(a: string, b: string, room: Option<nat>)
    requires a <= b && Overflows(a, room)
    ensures Overflows(b, room) && Landed(b, room) == Landed(a, room)
  {
  }

  /** A buffered writer on a disk that may fill up; a failed write fails for good. */
  class Writer {
    const max: nat
    const room: Option<nat>
    var file: string           // what has reached the disk
    var buf: string
    var broken: bool
    var n: nat
    var truncated: bool
    ghost var ideal: Out       // the capped file if the disk took everything

    ghost predicate Valid()
      reads this
    {
      && (room.Some? ==> |file| <= room.value)
      && (!broken ==> file + buf == ideal.text && n == |ideal.text| && truncated == ideal.full)
      && (broken ==> Overflows(ideal.text, room) && file == Landed(ideal.text, room))
    }

    constructor (capBytes: int, room: Option<nat>)
      ensures Valid() && ideal == EMPTY_OUT && max == EffectiveCap(capBytes) && this.room == room
    {
      max := EffectiveCap(capBytes);
      this.room := room;
      file, buf, broken, n, truncated, ideal := "", "", false, 0, false, EMPTY_OUT;
    }

    /** Write a line and its newline unless that would pass the cap; after that, or once the disk has failed,
        nothing more. */
    method WriteLine(line: string) returns (written: bool)
      requires Valid()
      modifies this
      ensures Valid() && ideal == Put(old(ideal), max, line)
      ensures written <==> !truncated
    {
      PutGrows(ideal, max, line);
      if broken { LandedPrefix(ideal.text, Put(ideal, max, line).text, room); }
      ideal := Put(ideal, max, line);
      if truncated { return false; }
      var need := |line| + 1;
      if n + need > max {
        truncated := true;
        return false;
      }
      ConcatAssociative(file + buf, line, "\n");
      var err1 := Buffer(line);
      var err2 := Buffer("\n");
      if err1 || err2 {
        truncated := true;
        return false;
      }
      n := n + need;
      return true;
    }

    /** Bytes go to the disk whenever the buffer is written through, and only in order. */
    method Buffer(p: string) returns (err: bool)
      requires room.Some? ==> |file| <= room.value
      modifies this`file, this`buf, this`broken
      ensures err == broken && (room.Some? ==> |file| <= room.value)
      ensures old(broken) ==> broken && file == old(file)
      ensures !broken ==> file + buf == old(file + buf) + p
      ensures broken && !old(broken) ==>
        Overflows(old(file + buf) + p, room) && file == Landed(old(file + buf) + p, room)
    {
      if broken { return true; }
      ConcatAssociative(file, buf, p);
      buf := buf + p;
      var through: bool := *;
      if !through { return false; }
      err := WriteThrough();
    }

    method WriteThrough() returns (err: bool)
      requires !broken && (room.Some? ==> |file| <= room.value)
      modifies this`file, this`buf, this`broken
      ensures err == broken == Overflows(old(file + buf), room)
      ensures file == Landed(old(file + buf), room) && (!broken ==> buf == "")
    {
      if room.Some? && |file| + |buf| > room.value {
        assert (file + buf)[..room.value] == file + buf[..room.value - |file|];
        file, broken := file + buf[..room.value - |file|], true;
        return true;
      }
      file, buf := file + buf, "";
      return false;
    }

    method Flush() returns (err: bool)
      requires Valid()
      modifies this`file, this`buf, this`broken
      ensures Valid()
      ensures file == Landed(ideal.text, room) && err == Overflows(ideal.text, room)
    {
      if broken { return true; }
      err := WriteThrough();
    }
  }

  // ---------------------------------------------------------------- the offline filter

  datatype Read = Line | BufferFull | EndOfInput

  const BUFFER := 256 * 1024

  /** The buffered reader: up to the next newline, or a full buffer, or the end. */
  method ReadSlice(raw: string, pos: nat) returns (frag: string, status: Read)
    requires pos <= |raw|
    ensures pos + |frag| <= |raw| && frag == raw[pos..pos + |frag|]
    ensures status.Line? ==> |frag| > 0 && NoNewline(frag[..|frag| - 1]) && frag[|frag| - 1] == '\n'
    ensures status.BufferFull? ==> |frag| > 0 && NoNewline(frag)
    ensures status.EndOfInput? ==> NoNewline(frag) && pos + |frag| == |raw|
  {
    var i := pos;
    while i < |raw| && i - pos < BUFFER && raw[i] != '\n'
      invariant pos <= i <= |raw| && NoNewline(raw[pos..i])
    {
      assert raw[pos..i + 1] == raw[pos..i] + [raw[i]];
      i := i + 1;
    }
    if i == |raw| { return raw[pos..i], EndOfInput; }
    if raw[i] == '\n' {
      assert raw[pos..i + 1][..i - pos] == raw[pos..i];
      return raw[pos..i + 1], Line;
    }
    return raw[pos..i], BufferFull;
  }

  /** What the filter should hold after reading some bytes. */
  function Filtered(raw: string, cap: nat): Out {
    PutAll(EMPTY_OUT, cap, Kept(LinesUpTo(raw, MAX_LINE)))
  }

  lemma FilteredFragment(raw: string, x: string, cap: nat)
    requires NoNewline(x)
    ensures Filtered(raw + x, cap) == Filtered(raw, cap) && RestOf(raw + x) == RestOf(raw) + x
  {
    AppendFragment(raw, x);
  }

  lemma FilteredLine(raw: string, x: string, cap: nat)
    requires NoNewline(x)
    ensures RestOf(raw + x + "\n") == ""
    ensures var whole := RestOf(raw) + x;
      Filtered(raw + x + "\n", cap) ==
      if Survives(whole)
      then Put(Filtered(raw, cap), cap, StripCR(whole)) else Filtered(raw, cap)
  {
    AppendLine(raw, x);
    var whole := RestOf(raw) + x;
    var more := if |whole| + 1 <= MAX_LINE then Cleaned(whole) else [];
    KeptConcat(LinesUpTo(raw, MAX_LINE), more);
    PutAllConcat(EMPTY_OUT, cap, Kept(LinesUpTo(raw, MAX_LINE)), Kept(more));
    PutAllOne(Filtered(raw, cap), cap, more);
  }

  lemma PutAllOne(o: Out, cap: nat, more: seq<string>)
    requires |more| <= 1
    ensures PutAll(o, cap, Kept(more)) == if |more| == 1 && !RetainDrop(more[0]) then Put(o, cap, more[0]) else o
  {
    if |more| == 1 {
      assert more[1..] == [];
      if !RetainDrop(more[0]) { assert Kept(more) == [more[0]] && [more[0]][1..] == []; }
    }
  }

  lemma {:induction false} FilteredPrefixFull(raw: string, n: nat, cap: nat)
    requires n <= |raw| && Filtered(raw[..n], cap).full
    ensures Filtered(raw, cap) == Filtered(raw[..n], cap)
    decreases |raw| - n
  {
    if n == |raw| {
      assert raw[..n] == raw;
    } else {
      PrefixNext(raw, n);
      var more := if raw[n] == '\n' && |RestOf(raw[..n])| + 1 <= MAX_LINE then Cleaned(RestOf(raw[..n])) else [];
      assert raw[..n + 1][..n] == raw[..n];
      KeptConcat(LinesUpTo(raw[..n], MAX_LINE), more);
      PutAllConcat(EMPTY_OUT, cap, Kept(LinesUpTo(raw[..n], MAX_LINE)), Kept(more));
      FullStays(Filtered(raw[..n], cap), cap, Kept(more));
      FilteredPrefixFull(raw, n + 1, cap);
    }
  }

  /** The filter's loop state after consuming raw[..pos]. */
  ghost predicate Reading(raw: string, pos: nat, line: string, over: bool) {
    && pos <= |raw|
    && (over <==> |RestOf(raw[..pos])| > MAX_LINE)
    && (!over ==> line == RestOf(raw[..pos]))
  }

  lemma NextFragment(raw: string, pos: nat, frag: string, cap: nat)
    requires pos + |frag| <= |raw| && frag == raw[pos..pos + |frag|] && NoNewline(frag)
    ensures RestOf(raw[..pos + |frag|]) == RestOf(raw[..pos]) + frag
    ensures Filtered(raw[..pos + |frag|], cap) == Filtered(raw[..pos], cap)
  {
    assert raw[..pos + |frag|] == raw[..pos] + frag;
    FilteredFragment(raw[..pos], frag, cap);
  }

  lemma NextLine(raw: string, pos: nat, frag: string, cap: nat)
    requires pos + |frag| <= |raw| && frag == raw[pos..pos + |frag|]
    requires |frag| > 0 && NoNewline(frag[..|frag| - 1]) && frag[|frag| - 1] == '\n'
    ensures RestOf(raw[..pos + |frag|]) == ""
    ensures var whole := RestOf(raw[..pos]) + frag[..|frag| - 1];
      Filtered(raw[..pos + |frag|], cap) ==
      if Survives(whole)
      then Put(Filtered(raw[..pos], cap), cap, StripCR(whole)) else Filtered(raw[..pos], cap)
  {
    assert raw[..pos + |frag|] == raw[..pos] + frag[..|frag| - 1] + "\n";
    FilteredLine(raw[..pos], frag[..|frag| - 1], cap);
  }

  /** The line a filter step writes, if any: not overlong, not empty, not dropped. */
  predicate Survives(whole: string) {
    |whole| + 1 <= MAX_LINE && StripCR(whole) != "" && !RetainDrop(StripCR(whole))
  }

  method KeepLine(w: Writer, whole: string)
    requires w.Valid() && |whole| + 1 <= MAX_LINE
    modifies w
    ensures w.Valid() && w.ideal == if Survives(whole) then Put(old(w.ideal), w.max, StripCR(whole)) else old(w.ideal)
  {
    var l := StripCR(whole);
    if |l| > 0 && !RetainDrop(l) {
      var written := w.WriteLine(l);
    }
  }

  /** One fragment: extend the line, or finish it. */
  method ReadOn(raw: string, w: Writer, pos0: nat, line0: string, over0: bool)
    returns (pos: nat, line: string, over: bool, status: Read)
    requires Reading(raw, pos0, line0, over0) && w.Valid() && w.ideal == Filtered(raw[..pos0], w.max)
    modifies w
    ensures Reading(raw, pos, line, over) && w.Valid() && w.ideal == Filtered(raw[..pos], w.max)
    ensures pos0 <= pos && (!status.EndOfInput? ==> pos0 < pos) && (status.EndOfInput? ==> pos == |raw|)
  {
    var frag;
    frag, status := ReadSlice(raw, pos0);
    ghost var before := RestOf(raw[..pos0]);
    pos, line, over := pos0 + |frag|, line0, over0;
    if !over {
      if |line| + |frag| > MAX_LINE { over, line := true, ""; } else { line := line + frag; }
    }
    if !status.Line? {
      NextFragment(raw, pos0, frag, w.max);
      return;
    }
    NextLine(raw, pos0, frag, w.max);
    if !over {
      assert line[..|line| - 1] == before + frag[..|frag| - 1];
      KeepLine(w, line[..|line| - 1]);
    } else {
      TooLongToSurvive(before + frag[..|frag| - 1]);
    }
    line, over := "", false;
  }

  lemma TooLongToSurvive(whole: string)
    requires |whole| + 1 > MAX_LINE
    ensures !Survives(whole)
  {
  }

  /** What can go wrong: the disk takes only so many bytes, the raw file can be read only so far, or the
      new file cannot be closed. */
  datatype Faults = Faults(room: Option<nat>, readable: Option<nat>, closeFails: bool)

  predicate ReadFails(raw: string, faults: Faults) {
    faults.readable.Some? && faults.readable.value < |raw|
  }

  function Readable(raw: string, faults: Faults): string {
    if ReadFails(raw, faults) then raw[..faults.readable.value] else raw
  }

  /** The file a filter run leaves behind, and whether it reports a failure. */
  function FinalText(raw: string, cap: nat, faults: Faults): string {
    Landed(Filtered(Readable(raw, faults), cap).text, faults.room)
  }

  predicate FinalizeFails(raw: string, cap: nat, faults: Faults) {
    var o := Filtered(Readable(raw, faults), cap);
    Overflows(o.text, faults.room) || (ReadFails(raw, faults) && !o.full) || faults.closeFails
  }

  lemma {:induction false} FilteredGrows(raw: string, n: nat, cap: nat)
    requires n <= |raw|
    ensures Filtered(raw[..n], cap).text <= Filtered(raw, cap).text
    decreases |raw| - n
  {
    if n == |raw| {
      assert raw[..n] == raw;
    } else {
      PrefixNext(raw, n);
      FilteredNext(raw[..n], raw[n], cap);
      FilteredGrows(raw, n + 1, cap);
    }
  }

  lemma FilteredNext(raw: string, c: char, cap: nat)
    ensures Filtered(raw, cap).text <= Filtered(raw + [c], cap).text
  {
    if c == '\n' {
      FilteredLine(raw, "", cap);
      assert raw + "" + "\n" == raw + [c];
      PutGrows(Filtered(raw, cap), cap, StripCR(RestOf(raw) + ""));
    } else {
      FilteredFragment(raw, [c], cap);
    }
  }

  /** Whatever goes wrong, the file is a prefix of what it should be, with no hole; and a run that reports no
      failure has left exactly that. */
  lemma FailedFilterLeavesAPrefix(raw: string, cap: nat, faults: Faults)
    ensures FinalText(raw, cap, faults) <= Filtered(raw, cap).text
    ensures !FinalizeFails(raw, cap, faults) ==> FinalText(raw, cap, faults) == Filtered(raw, cap).text
  {
    if ReadFails(raw, faults) {
      FilteredGrows(raw, faults.readable.value, cap);
      if Filtered(Readable(raw, faults), cap).full { FilteredPrefixFull(raw, faults.readable.value, cap); }
    }
  }

  /** Filter a raw file: whatever the size of the reader's fragments, with overlong lines skipped, and with a
      last line that never ended left out. */
  method Finalize(raw: string, capBytes: int, faults: Faults) returns (text: string, failed: bool)
    ensures text == FinalText(raw, EffectiveCap(capBytes), faults)
    ensures failed == FinalizeFails(raw, EffectiveCap(capBytes), faults)
    ensures !failed && |KeptText(raw)| <= EffectiveCap(capBytes) ==> text == KeptText(raw)
  {
    FailedFilterLeavesAPrefix(raw, EffectiveCap(capBytes), faults);
    FitsTheCapIff(EffectiveCap(capBytes), Kept(LinesUpTo(raw, MAX_LINE)));
    var w := new Writer(capBytes, faults.room);
    var input := Readable(raw, faults);
    var pos, line, over, status := 0, "", false, Line;
    assert input[..0] == "";
    while !status.EndOfInput? && !w.truncated
      invariant Reading(input, pos, line, over) && (status.EndOfInput? ==> pos == |input|)
      invariant w.Valid() && fresh(w) && w.max == EffectiveCap(capBytes) && w.room == faults.room
      invariant w.ideal == Filtered(input[..pos], w.max)
      decreases !status.EndOfInput?, |input| - pos
    {
      pos, line, over, status := ReadOn(input, w, pos, line, over);
    }
    StoppedEarly(input, pos, w.max, w.room);
    var flushed := w.Flush();
    failed := flushed || (!w.truncated && ReadFails(raw, faults)) || faults.closeFails;
    return w.file, failed;
  }

  /** Stopping at the cap, or at a disk that is full, loses nothing. */
  lemma StoppedEarly(input: string, pos: nat, cap: nat, room: Option<nat>)
    requires pos <= |input|
    ensures var o := Filtered(input[..pos], cap);
      o.full || Overflows(o.text, room) || pos == |input| ==>
        Landed(o.text, room) == Landed(Filtered(input, cap).text, room)
        && Overflows(o.text, room) == Overflows(Filtered(input, cap).text, room)
        && (!Overflows(o.text, room) ==> o.full == Filtered(input, cap).full)
  {
    var o := Filtered(input[..pos], cap);
    if pos == |input| { assert input[..pos] == input; }
    if o.full { FilteredPrefixFull(input, pos, cap); }
    FilteredGrows(input, pos, cap);
    if Overflows(o.text, room) { LandedPrefix(o.text, Filtered(input, cap).text, room); }
  }
}

/**
 The retention sweep over the log directory: orphaned raw logs are filtered before they go, and
 finished logs are evicted oldest first.

 Process liveness, the process id in a name and the failures of the file system are parameters.
 */
module LogDir {
  import opened Basics
  import opened Names
  import Retain

  /** A directory entry; anything but a regular file is a directory or a symbolic link. */
  datatype File = File(regular: bool, mtime: int, content: string)

  type Files = map<Name, File>

  const SUFFIX := ".jsonl"
  const RAW_SUFFIX := ".raw"

  /** What happens when a raw file is filtered: one of the files cannot be opened, or the filter runs with
      some faults and ends at some time. */
  datatype FilterRun = Refused | Ran(faults: Retain.Faults, at: int)

  datatype Env = Env(
    pidOf: Name -> Option<nat>,
    alive: nat -> bool,
    filter: Name -> FilterRun,
    stamps: Name -> bool,        // setting the time of this file succeeds
    removes: Name -> bool)       // removing this file succeeds

  datatype Limits = Limits(now: int, maxAge: int, capBytes: int, retainedCap: int)

  function TrimSuffix(n: Name, suffix: Name): Name {
    if HasSuffix(n, suffix) then n[..|n| - |suffix|] else n
  }

  predicate IsRaw(files: Files, n: Name) {
    HasSuffix(n, RAW_SUFFIX) && n in files && files[n].regular
  }

  predicate IsLog(files: Files, n: Name) {
    HasSuffix(n, SUFFIX) && n in files && files[n].regular
  }

  function LogOf(raw: Name): Name {
    TrimSuffix(raw, RAW_SUFFIX) + SUFFIX
  }

  function RawOf(log: Name): Name {
    TrimSuffix(log, SUFFIX) + RAW_SUFFIX
  }

  lemma SuffixesDiffer(n: Name)
    ensures !(HasSuffix(n, RAW_SUFFIX) && HasSuffix(n, SUFFIX))
  {
    if HasSuffix(n, RAW_SUFFIX) { assert n[|n| - 1] == n[|n| - 4..][3] == 'w'; }
    if HasSuffix(n, SUFFIX) { assert n[|n| - 1] == n[|n| - 6..][5] == 'l'; }
  }

  lemma StemsAgree(stem: Name)
    ensures HasSuffix(stem + RAW_SUFFIX, RAW_SUFFIX) && TrimSuffix(stem + RAW_SUFFIX, RAW_SUFFIX) == stem
    ensures HasSuffix(stem + SUFFIX, SUFFIX) && TrimSuffix(stem + SUFFIX, SUFFIX) == stem
    ensures LogOf(stem + RAW_SUFFIX) == stem + SUFFIX && RawOf(stem + SUFFIX) == stem + RAW_SUFFIX
  {
    assert (stem + RAW_SUFFIX)[..|stem|] == stem && (stem + SUFFIX)[..|stem|] == stem;
  }

  lemma StemBack(n: Name, suffix: Name)
    requires HasSuffix(n, suffix)
    ensures TrimSuffix(n, suffix) + suffix == n
  {
  }

  // ---------------------------------------------------------------- step 1: orphaned raw files

  predicate TooOld(o: Limits, f: File) {
    o.now - f.mtime > o.maxAge
  }

  /** Whether the run behind a raw file is over, or too old to be waited for. */
  predicate Due(env: Env, o: Limits, files: Files, n: Name) {
    IsRaw(files, n) && (TooOld(o, files[n]) || (env.pidOf(n).Some? && !env.alive(env.pidOf(n).value)))
  }

  function Refined(o: Limits, raw: File): string {
    Retain.Filtered(raw.content, Retain.EffectiveCap(o.retainedCap)).text
  }

  /** Filter a raw file into its log, date the log like the raw file, and only then remove the raw file. */
  function FinalizeFile(env: Env, o: Limits, files: Files, n: Name): Files
    requires n in files
  {
    var log := LogOf(n);
    if log in files && !files[log].regular then files
    else
      match env.filter(n)
      case Refused => files
      case Ran(faults, at) =>
        var cap := Retain.EffectiveCap(o.retainedCap);
        var text := Retain.FinalText(files[n].content, cap, faults);
        if Retain.FinalizeFails(files[n].content, cap, faults) then files[log := File(true, at, text)]
        else
          var filtered := files[log := File(true, if env.stamps(log) then files[n].mtime else at, text)];
          if env.removes(n) then filtered - {n} else filtered
  }

  function Visit(env: Env, o: Limits, files: Files, n: Name): Files {
    if Due(env, o, files, n) then FinalizeFile(env, o, files, n) else files
  }

  function FinalizeAll(env: Env, o: Limits, files: Files, names: seq<Name>): Files {
    if names == [] then files
    else Visit(env, o, FinalizeAll(env, o, files, names[..|names| - 1]), names[|names| - 1])
  }

  function Look(files: Files, n: Name): Option<File> {
    if n in files then Some(files[n]) else None
  }

  /** The raw file a name belongs to, if any. */
  function Owner(m: Name): Name {
    if HasSuffix(m, RAW_SUFFIX) then m else if HasSuffix(m, SUFFIX) then RawOf(m) else ""
  }

  lemma OwnersAreRaw(n: Name)
    requires HasSuffix(n, RAW_SUFFIX)
    ensures Owner(n) == n && Owner(LogOf(n)) == n && LogOf(n) != n
  {
    var stem := TrimSuffix(n, RAW_SUFFIX);
    StemBack(n, RAW_SUFFIX);
    StemsAgree(stem);
    SuffixesDiffer(n);
    SuffixesDiffer(LogOf(n));
  }

  lemma FinalizeTouchesItsPair(env: Env, o: Limits, files: Files, n: Name, m: Name)
    requires n in files && m != n && m != LogOf(n)
    ensures Look(FinalizeFile(env, o, files, n), m) == Look(files, m)
  {
  }

  lemma VisitIsLocal(env: Env, o: Limits, files: Files, n: Name, m: Name)
    requires Owner(m) != n
    ensures Look(Visit(env, o, files, n), m) == Look(files, m)
  {
    if Due(env, o, files, n) {
      OwnersAreRaw(n);
      FinalizeTouchesItsPair(env, o, files, n, m);
    }
  }

  lemma FinalizeDependsOnItsPair(env: Env, o: Limits, a: Files, b: Files, n: Name, m: Name)
    requires n in a && n in b && a[n] == b[n] && Look(a, LogOf(n)) == Look(b, LogOf(n)) && Look(a, m) == Look(b, m)
    ensures Look(FinalizeFile(env, o, a, n), m) == Look(FinalizeFile(env, o, b, n), m)
  {
  }

  lemma VisitDependsOnItsPair(env: Env, o: Limits, a: Files, b: Files, m: Name)
    requires Look(a, Owner(m)) == Look(b, Owner(m)) && Look(a, LogOf(Owner(m))) == Look(b, LogOf(Owner(m)))
    requires Look(a, m) == Look(b, m)
    ensures Look(Visit(env, o, a, Owner(m)), m) == Look(Visit(env, o, b, Owner(m)), m)
  {
    assert Due(env, o, a, Owner(m)) == Due(env, o, b, Owner(m));
    if Due(env, o, a, Owner(m)) { FinalizeDependsOnItsPair(env, o, a, b, Owner(m), m); }
  }

  /** The order in which the directory lists its files does not matter: each file ends up as if its own
      raw file were the only one visited. */
  lemma {:induction false} EachPairOnItsOwn(env: Env, o: Limits, files: Files, names: seq<Name>, m: Name)
    requires Distinct(names)
    ensures Look(FinalizeAll(env, o, files, names), m) ==
      Look(if Owner(m) in names then Visit(env, o, files, Owner(m)) else files, m)
  {
    if names != [] {
      var init, n := names[..|names| - 1], names[|names| - 1];
      var before := FinalizeAll(env, o, files, init);
      assert names == init + [n] && n !in init;
      EachPairOnItsOwn(env, o, files, init, m);
      if Owner(m) != n {
        VisitIsLocal(env, o, before, n, m);
      } else if HasSuffix(n, RAW_SUFFIX) {
        OwnersAreRaw(n);
        EachPairOnItsOwn(env, o, files, init, n);
        EachPairOnItsOwn(env, o, files, init, LogOf(n));
        VisitDependsOnItsPair(env, o, before, files, m);
      }
    }
  }

  /** The run behind a raw file is over: its process is known to be gone, or the file is older than a run may be. */
  predicate RunOver(env: Env, o: Limits, name: Name, raw: File) {
    o.now - raw.mtime > o.maxAge || (env.pidOf(name).Some? && !env.alive(env.pidOf(name).value))
  }

  /** Nothing but a regular file is where the log goes, and the filter gets to run. */
  predicate FilterRuns(env: Env, files: Files, n: Name) {
    env.filter(n).Ran? && (LogOf(n) in files ==> files[LogOf(n)].regular)
  }

  predicate FilterFails(env: Env, o: Limits, n: Name, raw: File) {
    env.filter(n).Ran?
    && Retain.FinalizeFails(raw.content, Retain.EffectiveCap(o.retainedCap), env.filter(n).faults)
  }

  /** What the first step does to a raw file and its log. A run that is not over is left alone. When it is over,
      the raw file goes exactly when it was filtered without a failure and can be removed; then the log holds
      all that is to be kept of it. A filter that fails leaves a part of that, and the raw file. */
  ghost predicate PairFinalized(env: Env, o: Limits, files: Files, after: Files, n: Name)
    requires n in files
  {
    var raw, log := files[n], LogOf(n);
    && (n !in after <==>
          RunOver(env, o, n, raw) && FilterRuns(env, files, n) && !FilterFails(env, o, n, raw) && env.removes(n))
    && (n in after ==> after[n] == raw)
    && (if !RunOver(env, o, n, raw) || !FilterRuns(env, files, n) then Look(after, log) == Look(files, log)
        else
          && IsLog(after, log)
          && (if FilterFails(env, o, n, raw) then after[log].content <= Refined(o, raw)
              else after[log].content == Refined(o, raw) && (env.stamps(log) ==> after[log].mtime == raw.mtime)))
  }

  /** No evidence is lost: a raw file that is gone has been filtered into its log; one that is still
      there has not been changed. One whose run may still be writing is left alone with its log. */
  lemma NoRawIsLostUnfiltered(env: Env, o: Limits, files: Files, names: seq<Name>, n: Name)
    requires Distinct(names) && Elems(names) == files.Keys && IsRaw(files, n)
    ensures PairFinalized(env, o, files, FinalizeAll(env, o, files, names), n)
  {
    var log := LogOf(n);
    OwnersAreRaw(n);
    StemsAgree(TrimSuffix(n, RAW_SUFFIX));
    EachPairOnItsOwn(env, o, files, names, n);
    EachPairOnItsOwn(env, o, files, names, log);
    assert n in Elems(names);
    if Due(env, o, files, n) && env.filter(n).Ran? {
      Retain.FailedFilterLeavesAPrefix(files[n].content, Retain.EffectiveCap(o.retainedCap), env.filter(n).faults);
    }
    var own := Visit(env, o, files, n);
    assert Look(FinalizeAll(env, o, files, names), n) == Look(own, n);
    assert Look(FinalizeAll(env, o, files, names), log) == Look(own, log);
  }

  // ---------------------------------------------------------------- step 2: retention

  /** Finished logs: those whose raw file is gone. */
  function Evictable(files: Files): set<Name> {
    set n | n in files && IsLog(files, n) && !IsRaw(files, RawOf(n))
  }

  function Counted(files: Files): set<Name> {
    set n | n in files && (IsRaw(files, n) || IsLog(files, n))
  }

  ghost function SizeOf(files: Files, names: set<Name>): nat
    requires names <= files.Keys
  {
    if names == {} then 0
    else
      var n :| n in names;
      |files[n].content| + SizeOf(files, names - {n})
  }

  lemma {:induction false} SizeWithout(files: Files, names: set<Name>, n: Name)
    requires names <= files.Keys && n in names
    ensures SizeOf(files, names) == |files[n].content| + SizeOf(files, names - {n})
    decreases names
  {
    var k :| k in names && SizeOf(files, names) == |files[k].content| + SizeOf(files, names - {k});
    if k != n {
      SizeWithout(files, names - {k}, n);
      SizeWithout(files, names - {n}, k);
      assert names - {k} - {n} == names - {n} - {k};
    }
  }

  lemma {:induction false} SizesAgree(a: Files, b: Files, names: set<Name>)
    requires names <= a.Keys && names <= b.Keys && forall n | n in names :: a[n] == b[n]
    ensures SizeOf(a, names) == SizeOf(b, names)
    decreases names
  {
    if n :| n in names {
      SizeWithout(a, names, n);
      SizeWithout(b, names, n);
      SizesAgree(a, b, names - {n});
    }
  }

  ghost function Total(files: Files): nat {
    SizeOf(files, Counted(files))
  }

  function SizesOf(files: Files, names: seq<Name>): nat
    requires forall n | n in names :: n in files
  {
    if names == [] then 0
    else SizesOf(files, names[..|names| - 1]) + |files[names[|names| - 1]].content|
  }

  ghost predicate OldestFirst(files: Files, order: seq<Name>) {
    && (forall n | n in order :: n in files)
    && (forall i, j | 0 <= i < j < |order| :: files[order[i]].mtime <= files[order[j]].mtime)
  }

  /** order lists the finished logs, oldest first. */
  ghost predicate Queue(files: Files, order: seq<Name>) {
    OldestFirst(files, order) && Distinct(order) && Elems(order) == Evictable(files)
  }

  /** Evicting the first k meets both limits, as far as evicting can. */
  ghost predicate Meets(o: Limits, files: Files, order: seq<Name>, k: nat)
    requires Queue(files, order) && k <= |order|
  {
    && (forall i | k <= i < |order| :: !TooOld(o, files[order[i]]))
    && (k == |order| || Total(files) - SizesOf(files, order[..k]) <= o.capBytes)
  }

  /** The fewest evictions that meet the limits. */
  ghost predicate FewestEvictions(o: Limits, files: Files, order: seq<Name>, cut: nat) {
    && Queue(files, order) && cut <= |order|
    && Meets(o, files, order, cut)
    && (forall k | 0 <= k < cut :: !Meets(o, files, order, k))
  }

  /** Of the names listed, those that can be removed. */
  function Removable(env: Env, names: seq<Name>): set<Name> {
    set n | n in names && env.removes(n)
  }

  /** What is left when the first k are evicted. */
  function Without(env: Env, files: Files, order: seq<Name>, k: nat): Files
    requires k <= |order|
  {
    files - Removable(env, order[..k])
  }

  function Evictions(env: Env, order: seq<Name>): nat {
    if order == [] then 0
    else Evictions(env, order[..|order| - 1]) + if env.removes(order[|order| - 1]) then 1 else 0
  }

  // ---------------------------------------------------------------- what a sweep achieves

  lemma {:induction false} SizesOfQueue(files: Files, names: seq<Name>)
    requires Distinct(names) && Elems(names) <= files.Keys
    requires forall n | n in names :: n in files
    ensures SizesOf(files, names) == SizeOf(files, Elems(names))
  {
    if names != [] {
      var init, n := names[..|names| - 1], names[|names| - 1];
      assert names == init + [n] && n !in Elems(init) && Elems(names) - {n} == Elems(init);
      assert Elems(init) <= Elems(names);
      SizesOfQueue(files, init);
      SizeWithout(files, Elems(names), n);
    }
  }

  lemma {:induction false} SizeSplit(files: Files, a: set<Name>, b: set<Name>)
    requires a !! b && a <= files.Keys && b <= files.Keys
    ensures SizeOf(files, a + b) == SizeOf(files, a) + SizeOf(files, b)
    decreases b
  {
    if n :| n in b {
      SizeWithout(files, a + b, n);
      SizeWithout(files, b, n);
      assert a + b - {n} == a + (b - {n});
      SizeSplit(files, a, b - {n});
    } else {
      assert a + b == a;
    }
  }

  /** Evicting logs changes neither which runs are live nor the other logs. */
  lemma EvictingLeavesTheRest(files: Files, gone: set<Name>)
    requires gone <= Evictable(files)
    ensures Evictable(files - gone) == Evictable(files) - gone
    ensures Counted(files - gone) == Counted(files) - gone && gone <= Counted(files)
  {
    forall n | n in gone ensures !HasSuffix(n, RAW_SUFFIX) { SuffixesDiffer(n); }
    forall n ensures IsRaw(files, n) <==> IsRaw(files - gone, n) {}
  }

  lemma TotalWithout(files: Files, gone: set<Name>)
    requires gone <= Evictable(files)
    ensures gone <= files.Keys && Total(files - gone) == Total(files) - SizeOf(files, gone)
  {
    EvictingLeavesTheRest(files, gone);
    var rest := Counted(files) - gone;
    SizesAgree(files, files - gone, rest);
    SizeSplit(files, rest, gone);
    assert rest + gone == Counted(files);
  }

  lemma QueuePrefix(env: Env, files: Files, order: seq<Name>, k: nat)
    requires Queue(files, order) && k <= |order| && forall n :: env.removes(n)
    ensures Without(env, files, order, k) == files - Elems(order[..k])
    ensures Elems(order[..k]) <= Evictable(files)
  {
    assert Removable(env, order[..k]) == Elems(order[..k]);
    assert Elems(order[..k]) <= Elems(order);
  }

  lemma PrefixTotal(env: Env, files: Files, order: seq<Name>, k: nat)
    requires Queue(files, order) && k <= |order| && forall n :: env.removes(n)
    ensures forall n | n in order[..k] :: n in files
    ensures Total(Without(env, files, order, k)) == Total(files) - SizesOf(files, order[..k])
  {
    QueuePrefix(env, files, order, k);
    TotalWithout(files, Elems(order[..k]));
    SizesOfQueue(files, order[..k]);
  }

  lemma InPrefix(order: seq<Name>, cut: nat, i: nat)
    ensures i < cut <= |order| ==> order[i] in order[..cut]
  {
    if i < cut <= |order| { assert order[..cut][i] == order[i]; }
  }

  /** A finished log: a regular file, and there is no regular raw file of the same stem. */
  predicate IsFinishedLog(files: Files, stem: Name) {
    && stem + ".jsonl" in files && files[stem + ".jsonl"].regular
    && !(stem + ".raw" in files && files[stem + ".raw"].regular)
  }

  lemma EvictableIff(files: Files, n: Name)
    ensures n in Evictable(files) <==>
      HasSuffix(n, ".jsonl") && IsFinishedLog(files, n[..|n| - |".jsonl"|])
  {
    if HasSuffix(n, SUFFIX) {
      StemBack(n, SUFFIX);
      StemsAgree(TrimSuffix(n, SUFFIX));
    }
  }

  lemma FinishedIsEvictable(files: Files, stem: Name)
    ensures IsFinishedLog(files, stem) <==> stem + ".jsonl" in Evictable(files)
  {
    StemsAgree(stem);
    EvictableIff(files, stem + ".jsonl");
    assert (stem + ".jsonl")[..|stem|] == stem;
  }

  /** The logs and raw files of a directory. */
  function LogsAndRaws(files: Files): set<Name> {
    set n | n in files && files[n].regular && (HasSuffix(n, ".raw") || HasSuffix(n, ".jsonl"))
  }

  /** When files can be removed, no finished log older than the limit is left, and the whole directory,
      live raw files included, is within the cap or no finished log is left. */
  lemma SweepMeetsTheLimits(env: Env, o: Limits, files: Files, order: seq<Name>, cut: nat)
    requires FewestEvictions(o, files, order, cut) && forall n :: env.removes(n)
    ensures var left := Without(env, files, order, cut);
      && (forall stem | IsFinishedLog(left, stem) :: o.now - left[stem + ".jsonl"].mtime <= o.maxAge)
      && (SizeOf(left, LogsAndRaws(left)) <= o.capBytes || forall stem :: !IsFinishedLog(left, stem))
  {
    var left := Without(env, files, order, cut);
    QueuePrefix(env, files, order, cut);
    PrefixTotal(env, files, order, cut);
    EvictingLeavesTheRest(files, Elems(order[..cut]));
    assert LogsAndRaws(left) == Counted(left);
    forall stem | IsFinishedLog(left, stem)
      ensures o.now - left[stem + ".jsonl"].mtime <= o.maxAge && cut < |order|
    {
      FinishedIsEvictable(left, stem);
      LeftIsYoung(o, files, order, cut, stem + ".jsonl");
    }
  }

  lemma LeftIsYoung(o: Limits, files: Files, order: seq<Name>, cut: nat, n: Name)
    requires FewestEvictions(o, files, order, cut) && n in Evictable(files) - Elems(order[..cut])
    ensures cut < |order| && !TooOld(o, files[n])
  {
    assert n in Elems(order);
    var i :| 0 <= i < |order| && order[i] == n;
    InPrefix(order, cut, i);
    assert n !in order[..cut];
  }

  /** Evictions go strictly from the oldest: nothing kept is older than anything evicted. And the last one
      was necessary: the file was itself too old, or without evicting it the directory was over the cap. */
  lemma EvictionsAreOldestAndNecessary(env: Env, o: Limits, files: Files, order: seq<Name>, cut: nat)
    requires FewestEvictions(o, files, order, cut) && forall n :: env.removes(n)
    ensures forall i, j | 0 <= i < cut <= j < |order| :: files[order[i]].mtime <= files[order[j]].mtime
    ensures forall i | 0 <= i < cut ::
      HasSuffix(order[i], ".jsonl") && IsFinishedLog(files, order[i][..|order[i]| - |".jsonl"|])
    ensures cut > 0 ==> var before := Without(env, files, order, cut - 1);
      o.now - files[order[cut - 1]].mtime > o.maxAge || SizeOf(before, LogsAndRaws(before)) > o.capBytes
  {
    forall i | 0 <= i < cut
      ensures HasSuffix(order[i], ".jsonl") && IsFinishedLog(files, order[i][..|order[i]| - |".jsonl"|])
    {
      assert order[i] in Elems(order);
      EvictableIff(files, order[i]);
    }
    if cut > 0 {
      var before := Without(env, files, order, cut - 1);
      PrefixTotal(env, files, order, cut - 1);
      assert LogsAndRaws(before) == Counted(before);
      assert !Meets(o, files, order, cut - 1);
      assert Meets(o, files, order, cut);
    }
  }

  /** The log of a run that may still be writing is never evicted, nor is its raw file. */
  lemma LiveRunsAreKept(env: Env, o: Limits, files: Files, order: seq<Name>, cut: nat, n: Name)
    requires FewestEvictions(o, files, order, cut) && IsRaw(files, n)
    ensures var left := Without(env, files, order, cut);
      && Look(left, n) == Look(files, n) && Look(left, LogOf(n)) == Look(files, LogOf(n))
      && LogOf(n) !in order[..cut]
  {
    OwnersAreRaw(n);
    StemsAgree(TrimSuffix(n, RAW_SUFFIX));
    StemBack(n, RAW_SUFFIX);
    SuffixesDiffer(n);
    forall i | 0 <= i < cut ensures order[i] != n && order[i] != LogOf(n) {
      assert order[i] in Elems(order);
    }
  }

  /** What a whole sweep does to a raw file and its log: as the first step, and then the log of a raw file that
      is gone may be evicted in turn. */
  ghost predicate PairSwept(env: Env, o: Limits, files: Files, left: Files, evicted: seq<Name>, n: Name)
    requires n in files
  {
    var raw, log := files[n], LogOf(n);
    && (!RunOver(env, o, n, raw) ==> Look(left, n) == Some(raw) && Look(left, log) == Look(files, log))
    && (RunOver(env, o, n, raw) && FilterRuns(env, files, n) && !FilterFails(env, o, n, raw) && env.removes(n) ==>
          n !in left && (log in evicted || (IsLog(left, log) && left[log].content == Refined(o, raw))))
    && (n in left ==> left[n] == raw && log !in evicted)
    && (n !in left ==> RunOver(env, o, n, raw) && FilterRuns(env, files, n) && !FilterFails(env, o, n, raw))
  }

  /** A whole sweep: the raw file of a run that may still be writing is unchanged, and so is its log. One whose
      run is over is gone if it could be filtered and removed, and its log is there unless that was evicted in
      turn; it is gone only if it was filtered first. */
  lemma WholeSweep(
    env: Env, o: Limits, files: Files, names: seq<Name>, order: seq<Name>, cut: nat, n: Name)
    requires Distinct(names) && Elems(names) == files.Keys && IsRaw(files, n)
    requires FewestEvictions(o, FinalizeAll(env, o, files, names), order, cut)
    ensures PairSwept(env, o, files, Without(env, FinalizeAll(env, o, files, names), order, cut), order[..cut], n)
  {
    var mid := FinalizeAll(env, o, files, names);
    NoRawIsLostUnfiltered(env, o, files, names, n);
    if n in mid { LiveRunsAreKept(env, o, mid, order, cut, n); } else { OnlyLogsGo(env, o, mid, order, cut, n); }
    SweptWhen(env, o, files, mid, Without(env, mid, order, cut), order[..cut], n);
  }

  lemma SweptWhen(env: Env, o: Limits, files: Files, mid: Files, left: Files, evicted: seq<Name>, n: Name)
    requires n in files && PairFinalized(env, o, files, mid, n)
    requires n in mid ==>
      Look(left, n) == Look(mid, n) && Look(left, LogOf(n)) == Look(mid, LogOf(n)) && LogOf(n) !in evicted
    requires n !in mid ==> n !in left && (LogOf(n) !in evicted ==> Look(left, LogOf(n)) == Look(mid, LogOf(n)))
    ensures PairSwept(env, o, files, left, evicted, n)
  {
  }

  lemma OnlyLogsGo(env: Env, o: Limits, files: Files, order: seq<Name>, cut: nat, n: Name)
    requires FewestEvictions(o, files, order, cut)
    ensures var left := Without(env, files, order, cut);
      (n !in files ==> n !in left) && (LogOf(n) !in order[..cut] ==> Look(left, LogOf(n)) == Look(files, LogOf(n)))
  {
  }

  lemma {:induction false} EvictionsAreRemovable(env: Env, names: seq<Name>)
    requires Distinct(names)
    ensures Evictions(env, names) == |Removable(env, names)|
  {
    if names == [] {
      assert Removable(env, names) == {};
    } else {
      var init, n := names[..|names| - 1], names[|names| - 1];
      assert names == init + [n] && n !in init;
      EvictionsAreRemovable(env, init);
      assert Removable(env, names) == Removable(env, init) + if env.removes(n) then {n} else {};
    }
  }

  /** What a sweep returns is how many files the second step took away. */
  lemma RemovedAreCounted(env: Env, files: Files, order: seq<Name>, k: nat)
    requires k <= |order| && Distinct(order) && forall n | n in order :: n in files
    ensures Evictions(env, order[..k]) == |files.Keys - Without(env, files, order, k).Keys|
  {
    EvictionsAreRemovable(env, order[..k]);
    assert files.Keys - Without(env, files, order, k).Keys == Removable(env, order[..k]);
  }

  /** Directories, symbolic links and files of other names are never touched. */
  lemma NothingElseIsTouched(
    env: Env, o: Limits, files: Files, names: seq<Name>, order: seq<Name>, cut: nat, m: Name)
    requires Distinct(names) && Elems(names) == files.Keys
    requires m in files && (!files[m].regular || !(HasSuffix(m, ".raw") || HasSuffix(m, ".jsonl")))
    requires FewestEvictions(o, FinalizeAll(env, o, files, names), order, cut)
    ensures Look(Without(env, FinalizeAll(env, o, files, names), order, cut), m) == Some(files[m])
  {
    var mid := FinalizeAll(env, o, files, names);
    EachPairOnItsOwn(env, o, files, names, m);
    if Due(env, o, files, Owner(m)) {
      OwnersAreRaw(Owner(m));
      if HasSuffix(m, SUFFIX) {
        StemBack(m, SUFFIX);
        StemsAgree(TrimSuffix(m, SUFFIX));
      }
    }
    assert mid[m] == files[m];
    forall i | 0 <= i < cut ensures order[i] != m {
      assert order[i] in Elems(order);
    }
  }

  // ---------------------------------------------------------------- the program

  function TimeOf(files: Files, n: Name): int {
    if n in files then files[n].mtime else 0
  }

  method OldestFirstOf(files: Files, names: seq<Name>) returns (order: seq<Name>)
    requires Distinct(names) && forall n | n in names :: n in files
    ensures OldestFirst(files, order) && Distinct(order) && Elems(order) == Elems(names)
  {
    order := SortSlice((a, b) => TimeOf(files, a) <= TimeOf(files, b), names);
    PermutationDistinct(names, order);
    forall n | n in order ensures n in files { assert n in Elems(names); }
  }

  class Dir {
    const env: Env
    var files: Files

    constructor (env: Env, files: Files)
      ensures this.env == env && this.files == files
    {
      this.env := env;
      this.files := files;
    }

    method Remove(n: Name) returns (ok: bool)
      modifies this
      ensures ok == env.removes(n) && files == if ok then old(files) - {n} else old(files)
    {
      ok := env.removes(n);
      if ok { files := files - {n}; }
    }

    method ReadDir() returns (names: seq<Name>)
      ensures Listing(names, files.Keys)
    {
      var todo := files.Keys;
      names := [];
      while todo != {}
        invariant todo <= files.Keys && Distinct(names) && Elems(names) == files.Keys - todo
      {
        var n :| n in todo;
        assert n !in Elems(names) && Elems(names + [n]) == Elems(names) + {n};
        names := names + [n];
        todo := todo - {n};
      }
      SortNamesLists(names);
      names := SortNames(names);
    }

    method Finalize(o: Limits, n: Name, mtime: int)
      requires n in files && files[n].mtime == mtime && HasSuffix(n, RAW_SUFFIX)
      modifies this
      ensures files == FinalizeFile(env, o, old(files), n)
    {
      OwnersAreRaw(n);
      var log := TrimSuffix(n, RAW_SUFFIX) + SUFFIX;
      if log in files && !files[log].regular { return; }
      match env.filter(n)
      case Refused => return;
      case Ran(faults, at) =>
        var text, failed := Retain.Finalize(files[n].content, o.retainedCap, faults);
        files := files[log := File(true, if !failed && env.stamps(log) then mtime else at, text)];
        if failed { return; }
        var gone := Remove(n);
    }

    /** Step 1. */
    method FinalizeOrphans(o: Limits) returns (ghost listed: seq<Name>)
      modifies this
      ensures Distinct(listed) && Elems(listed) == old(files.Keys)
      ensures files == FinalizeAll(env, o, old(files), listed)
      ensures forall n | IsRaw(old(files), n) :: PairFinalized(env, o, old(files), files, n)
    {
      var names := ReadDir();
      listed := names;
      for i := 0 to |names|
        invariant files == FinalizeAll(env, o, old(files), names[..i])
      {
        assert names[..i + 1][..i] == names[..i];
        var n := names[i];
        if !HasSuffix(n, RAW_SUFFIX) || n !in files || !files[n].regular { continue; }
        var pid := env.pidOf(n);
        var tooOld := o.now - files[n].mtime > o.maxAge;
        if pid.Some? && env.alive(pid.value) && !tooOld { continue; }
        if pid.None? && !tooOld { continue; }
        Finalize(o, n, files[n].mtime);
      }
      assert names[..|names|] == names;
      forall n | IsRaw(old(files), n) ensures PairFinalized(env, o, old(files), files, n) {
        NoRawIsLostUnfiltered(env, o, old(files), names, n);
      }
    }

    /** The size of everything counted, the stems of the live runs and the logs. */
    method Tally() returns (total: nat, live: set<Name>, logs: seq<Name>)
      ensures total == Total(files)
      ensures Distinct(logs) && Elems(logs) == set n | n in files && IsLog(files, n)
      ensures forall n | n in logs :: TrimSuffix(n, SUFFIX) in live <==> IsRaw(files, RawOf(n))
    {
      var names := ReadDir();
      total, live, logs := 0, {}, [];
      for i := 0 to |names|
        invariant Tallied(files, names[..i], total, live, logs)
      {
        var n := names[i];
        PrefixNext(names, i);
        assert n in Elems(names);
        TallyNext(files, names[..i], n, total, live, logs);
        var isRaw := HasSuffix(n, RAW_SUFFIX);
        if (!isRaw && !HasSuffix(n, SUFFIX)) || !files[n].regular { continue; }
        total := total + |files[n].content|;
        if isRaw {
          live := live + {TrimSuffix(n, RAW_SUFFIX)};
          continue;
        }
        logs := logs + [n];
      }
      assert names[..|names|] == names;
      TallyAll(files, names, total, live, logs);
    }

    method Survey() returns (queue: seq<Name>, total: nat)
      ensures Distinct(queue) && Elems(queue) == Evictable(files) && total == Total(files)
      ensures forall n | n in queue :: n in files
    {
      var live, logs;
      total, live, logs := Tally();
      queue := [];
      for i := 0 to |logs|
        invariant Distinct(queue) && Elems(queue) == Finished(files, logs[..i])
      {
        PrefixNext(logs, i);
        assert Finished(files, logs[..i + 1]) ==
          Finished(files, logs[..i]) + if IsRaw(files, RawOf(logs[i])) then {} else {logs[i]};
        if TrimSuffix(logs[i], SUFFIX) !in live {
          assert logs[i] !in logs[..i] && logs[i] !in Elems(queue);
          queue := queue + [logs[i]];
        }
      }
      assert logs[..|logs|] == logs;
      assert forall n :: n in logs <==> n in Elems(logs);
      assert forall n | n in queue :: n in Elems(queue);
    }

    ghost predicate Evicting(snapshot: Files, queue: seq<Name>, cut: nat, removed: nat, total: int)
      reads this
      requires Queue(snapshot, queue) && cut <= |queue|
    {
      && total == Total(snapshot) - SizesOf(snapshot, queue[..cut])
      && files == Without(env, snapshot, queue, cut)
      && removed == Evictions(env, queue[..cut])
    }

    method EvictNext(snapshot: Files, queue: seq<Name>, cut: nat, removed0: nat, total0: int)
      returns (removed: nat, total: int)
      requires Queue(snapshot, queue) && cut < |queue| && Evicting(snapshot, queue, cut, removed0, total0)
      modifies this
      ensures Evicting(snapshot, queue, cut + 1, removed, total)
    {
      PrefixNext(queue, cut);
      assert queue[..cut + 1][..cut] == queue[..cut];
      var ok := Remove(queue[cut]);
      WithoutNext(env, snapshot, queue, cut);
      removed := if ok then removed0 + 1 else removed0;
      total := total0 - |snapshot[queue[cut]].content|;
    }

    /** Step 2: evict as few finished logs as the limits allow, oldest first. */
    method Evict(o: Limits) returns (removed: nat, ghost order: seq<Name>, ghost cut: nat)
      modifies this
      ensures FewestEvictions(o, old(files), order, cut)
      ensures files == Without(env, old(files), order, cut)
      ensures removed == Evictions(env, order[..cut])
    {
      var queue, total: int := Survey();
      var snapshot := files;
      queue := OldestFirstOf(snapshot, queue);
      var k := 0;
      removed := 0;
      WithoutNone(env, snapshot, queue);
      while k < |queue| && o.now - snapshot[queue[k]].mtime > o.maxAge
        invariant k <= |queue| && Evicting(snapshot, queue, k, removed, total)
        invariant forall i | 0 <= i < k :: TooOld(o, snapshot[queue[i]])
      {
        removed, total := EvictNext(snapshot, queue, k, removed, total);
        k := k + 1;
      }
      ghost var young := k;
      while k < |queue| && total > o.capBytes
        invariant young <= k <= |queue| && Evicting(snapshot, queue, k, removed, total)
        invariant OverCap(o, snapshot, queue, young, k)
      {
        OverCapNext(o, snapshot, queue, young, k);
        removed, total := EvictNext(snapshot, queue, k, removed, total);
        k := k + 1;
      }
      order, cut := queue, k;
      FewestWhen(o, snapshot, queue, young, k);
    }

    /** The ghost results are the directory between the steps and what the second step evicted. */
    method SweepWith(o: Limits)
      returns (removed: nat, ghost names: seq<Name>, ghost mid: Files, ghost order: seq<Name>, ghost cut: nat)
      modifies this
      ensures Distinct(names) && Elems(names) == old(files.Keys) && mid == FinalizeAll(env, o, old(files), names)
      ensures FewestEvictions(o, mid, order, cut)
      ensures files == Without(env, mid, order, cut) && removed == |mid.Keys - files.Keys|
      ensures forall n | IsRaw(old(files), n) :: PairSwept(env, o, old(files), files, order[..cut], n)
    {
      names := FinalizeOrphans(o);
      mid := files;
      removed, order, cut := Evict(o);
      RemovedAreCounted(env, mid, order, cut);
      forall n | IsRaw(old(files), n) ensures PairSwept(env, o, old(files), files, order[..cut], n) {
        WholeSweep(env, o, old(files), names, order, cut, n);
      }
    }
  }

  function Finished(files: Files, logs: seq<Name>): set<Name> {
    set n | n in logs && !IsRaw(files, RawOf(n))
  }

  function CountedIn(files: Files, names: seq<Name>): (c: set<Name>)
    ensures c <= files.Keys
  {
    set n | n in names && n in Counted(files)
  }

  /** The survey's variables after looking at the names given. */
  ghost predicate Tallied(files: Files, names: seq<Name>, total: int, live: set<Name>, logs: seq<Name>) {
    && total == SizeOf(files, CountedIn(files, names))
    && live == (set n | n in names && IsRaw(files, n) :: TrimSuffix(n, RAW_SUFFIX))
    && Distinct(logs) && Elems(logs) == set n | n in names && IsLog(files, n)
  }

  lemma TallyNext(files: Files, names: seq<Name>, n: Name, total: int, live: set<Name>, logs: seq<Name>)
    requires Tallied(files, names, total, live, logs) && n in files && n !in names
    ensures if IsRaw(files, n) then
        Tallied(files, names + [n], total + |files[n].content|, live + {TrimSuffix(n, RAW_SUFFIX)}, logs)
      else if IsLog(files, n) then
        Tallied(files, names + [n], total + |files[n].content|, live, logs + [n])
      else Tallied(files, names + [n], total, live, logs)
  {
    SuffixesDiffer(n);
    CountNext(files, names, n);
    LiveNext(files, names, n);
    LogsNext(files, names, n, logs);
  }

  lemma CountNext(files: Files, names: seq<Name>, n: Name)
    requires n in files && n !in names
    ensures SizeOf(files, CountedIn(files, names + [n])) ==
      SizeOf(files, CountedIn(files, names)) + if n in Counted(files) then |files[n].content| else 0
  {
    if n in Counted(files) {
      SizeWithout(files, CountedIn(files, names + [n]), n);
      assert CountedIn(files, names + [n]) - {n} == CountedIn(files, names);
    } else {
      assert CountedIn(files, names + [n]) == CountedIn(files, names);
    }
  }

  lemma LiveNext(files: Files, names: seq<Name>, n: Name)
    ensures (set m | m in names + [n] && IsRaw(files, m) :: TrimSuffix(m, RAW_SUFFIX)) ==
      (set m | m in names && IsRaw(files, m) :: TrimSuffix(m, RAW_SUFFIX))
      + if IsRaw(files, n) then {TrimSuffix(n, RAW_SUFFIX)} else {}
  {
  }

  lemma LogsNext(files: Files, names: seq<Name>, n: Name, logs: seq<Name>)
    requires n !in names && Distinct(logs) && Elems(logs) == set m | m in names && IsLog(files, m)
    ensures (set m | m in names + [n] && IsLog(files, m)) == Elems(logs) + if IsLog(files, n) then {n} else {}
    ensures IsLog(files, n) ==> Distinct(logs + [n]) && Elems(logs + [n]) == Elems(logs) + {n}
  {
    assert n !in Elems(logs);
  }

  lemma TallyAll(files: Files, names: seq<Name>, total: int, live: set<Name>, logs: seq<Name>)
    requires Tallied(files, names, total, live, logs) && Elems(names) == files.Keys
    ensures total == Total(files) && Elems(logs) == set n | n in files && IsLog(files, n)
    ensures forall n | n in logs :: TrimSuffix(n, SUFFIX) in live <==> IsRaw(files, RawOf(n))
  {
    assert forall n :: n in names <==> n in Elems(names);
    assert CountedIn(files, names) == Counted(files);
    forall n | n in logs ensures TrimSuffix(n, SUFFIX) in live <==> IsRaw(files, RawOf(n)) {
      StemsAgree(TrimSuffix(n, SUFFIX));
      if m :| m in names && IsRaw(files, m) && TrimSuffix(m, RAW_SUFFIX) == TrimSuffix(n, SUFFIX) {
        StemBack(m, RAW_SUFFIX);
      }
    }
  }

  lemma WithoutNone(env: Env, files: Files, order: seq<Name>)
    ensures Without(env, files, order, 0) == files
  {
    assert Removable(env, order[..0]) == {};
  }

  lemma WithoutNext(env: Env, files: Files, order: seq<Name>, k: nat)
    requires k < |order|
    ensures Without(env, files, order, k + 1) ==
      if env.removes(order[k]) then Without(env, files, order, k) - {order[k]} else Without(env, files, order, k)
  {
    PrefixNext(order, k);
    assert Removable(env, order[..k + 1]) ==
      Removable(env, order[..k]) + if env.removes(order[k]) then {order[k]} else {};
  }

  /** Evicting any number from young up to k leaves the directory over the cap. */
  ghost predicate OverCap(o: Limits, files: Files, order: seq<Name>, young: nat, k: nat)
    requires Queue(files, order) && k <= |order|
  {
    forall i | young <= i < k :: Total(files) - SizesOf(files, order[..i]) > o.capBytes
  }

  lemma OverCapNext(o: Limits, files: Files, order: seq<Name>, young: nat, k: nat)
    requires Queue(files, order) && k < |order| && OverCap(o, files, order, young, k)
    requires Total(files) - SizesOf(files, order[..k]) > o.capBytes
    ensures OverCap(o, files, order, young, k + 1)
  {
  }

  /** Stopping at the first file that is neither too old nor over the cap evicts no more than needed. */
  lemma FewestWhen(o: Limits, files: Files, order: seq<Name>, young: nat, cut: nat)
    requires Queue(files, order) && young <= cut <= |order|
    requires forall i | 0 <= i < young :: TooOld(o, files[order[i]])
    requires young < |order| ==> !TooOld(o, files[order[young]])
    requires OverCap(o, files, order, young, cut)
    requires cut == |order| || Total(files) - SizesOf(files, order[..cut]) <= o.capBytes
    ensures FewestEvictions(o, files, order, cut)
  {
    forall k | 0 <= k < cut ensures !Meets(o, files, order, k) {
      if k < young { assert TooOld(o, files[order[k]]); }
    }
    forall i | cut <= i < |order| ensures !TooOld(o, files[order[i]]) {
      assert files[order[young]].mtime <= files[order[i]].mtime;
    }
  }
}

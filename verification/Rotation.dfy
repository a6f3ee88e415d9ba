// cmd/vaporcito/monitor.go: the rotating log file.
module Rotation {
  import opened Common

  type Bytes = seq<byte>

  // The files of one log in its directory: "name" under BASE, "name.i" under i.
  type Files = map<int, Bytes>
  const BASE := -1

  function Lookup(files: Files, i: int): Option<Bytes> {
    if i in files then Some(files[i]) else None
  }

  function Data(files: Files, i: int): Bytes {
    if i in files then files[i] else []
  }

  // ---------- renaming ----------

  // os.Rename; a missing file is no error for the caller.
  function Rename(files: Files, from: int, to: int): Files {
    if from in files && from != to then (files - {from})[to := files[from]] else files
  }

  // The file at j once the files below top, down to the one at i, have moved up by one place.
  // The file at top is replaced only if there is one to replace it.
  function MovedAt(files: Files, i: int, top: int, j: int): Option<Bytes> {
    if j < i || j > top then Lookup(files, j)
    else if j == i < top then None
    else if i < j && j - 1 in files then Some(files[j - 1])
    else if j == top then Lookup(files, j)
    else None
  }

  // All files up to top move up by one place at once.
  function Moved(files: Files, top: nat): (r: Files)
    ensures forall j :: Lookup(r, j) == MovedAt(files, BASE, top, j)
  {
    map j | j in files.Keys + (set i | i in files :: i + 1) && MovedAt(files, BASE, top, j).Some?
      :: MovedAt(files, BASE, top, j).value
  }

  lemma RenameMoves(start: Files, now: Files, from: int, i: int, top: int)
    requires from == i - 1 && i <= top && forall j :: Lookup(now, j) == MovedAt(start, i, top, j)
    ensures forall j :: Lookup(Rename(now, from, i), j) == MovedAt(start, from, top, j)
  {
    assert Lookup(now, from) == Lookup(start, from);
    forall j ensures Lookup(Rename(now, from, i), j) == MovedAt(start, from, top, j) {
      assert Lookup(now, j) == MovedAt(start, i, top, j);
    }
  }

  lemma SameFiles(a: Files, b: Files)
    requires forall j :: Lookup(a, j) == Lookup(b, j)
    ensures a == b
  {
    forall j ensures j in a <==> j in b {
      assert Lookup(a, j) == Lookup(b, j);
    }
    forall j | j in a ensures a[j] == b[j] {
      assert Lookup(a, j) == Lookup(b, j);
    }
  }

  // ---------- the log as a whole ----------

  // The files from high down to low, oldest first.
  function Log(files: Files, low: int, high: int): Bytes
    decreases high - low
  {
    if high < low then [] else Data(files, high) + Log(files, low, high - 1)
  }

  lemma {:induction false} MovedLog(files: Files, top: nat, j: int)
    requires BASE <= j < top
    ensures Log(Moved(files, top), BASE, j) == Log(files, BASE, j - 1)
    decreases j
  {
    hide Moved;
    var moved := Moved(files, top);
    assert Lookup(moved, j) == MovedAt(files, BASE, top, j);
    if j > BASE {
      MovedLog(files, top, j - 1);
    }
  }

  // Moving the files up loses exactly the oldest file, and that only if another takes its place.
  lemma MovedDropsOldest(files: Files, top: nat)
    ensures var dropped := if top - 1 in files then |Data(files, top)| else 0;
      && dropped <= |Log(files, BASE, top)|
      && Log(Moved(files, top), BASE, top) == Log(files, BASE, top)[dropped..]
  {
    hide Moved;
    var moved := Moved(files, top);
    assert Lookup(moved, top) == MovedAt(files, BASE, top, top);
    MovedLog(files, top, top - 1);
    assert Log(files, BASE, top) == Data(files, top) + (Data(files, top - 1) + Log(files, BASE, top - 2));
    assert Log(moved, BASE, top) == Data(moved, top) + Log(files, BASE, top - 2);
  }

  lemma {:induction false} LogAppend(files: Files, bs: Bytes, high: int)
    requires BASE <= high
    ensures Log(files[BASE := Data(files, BASE) + bs], BASE, high) == Log(files, BASE, high) + bs
    decreases high
  {
    hide Log;
    var grown := files[BASE := Data(files, BASE) + bs];
    LogHead(files, high);
    LogHead(grown, high);
    if high > BASE {
      LogAppend(files, bs, high - 1);
      assert Data(grown, high) == Data(files, high);
      Associates(Data(files, high), Log(files, BASE, high - 1), bs);
    }
  }

  lemma LogHead(files: Files, high: int)
    requires BASE <= high
    ensures Log(files, BASE, high)
         == if high == BASE then Data(files, BASE) else Data(files, high) + Log(files, BASE, high - 1)
  {
  }

  // ---------- writing ----------

  datatype State = State(files: Files, currentSize: int, closed: bool)

  datatype Settings = Settings(maxSize: int, maxFiles: int) {
    // The highest number a rotated file gets. The base is renamed to number 0 in any case.
    function Top(): nat { if maxFiles >= 1 then maxFiles - 1 else 0 }
  }

  // What the system does during a write: whether create succeeds, whether a closed currentFile
  // opens its file anew (which it does if it was idle when it was closed), and how many bytes are
  // accepted.
  datatype Attempt = Attempt(bs: Bytes, createOk: bool, reopens: bool, accepted: nat)

  // A panic comes from closing currentFile twice.
  datatype Outcome = Written(n: nat) | CreateFailed | Refused | Panicked

  predicate Rotates(c: Settings, s: State, a: Attempt) {
    s.currentSize + |a.bs| > c.maxSize
  }

  function OutcomeOf(c: Settings, s: State, a: Attempt): Outcome {
    if Rotates(c, s, a) then
      if s.closed then Panicked else if a.createOk then Written(a.accepted) else CreateFailed
    else if s.closed && !a.reopens then Refused
    else Written(a.accepted)
  }

  // The bytes that reach a file.
  function Accepted(c: Settings, s: State, a: Attempt): Bytes
    requires a.accepted <= |a.bs|
  {
    if OutcomeOf(c, s, a).Written? then a.bs[..a.accepted] else []
  }

  function Step(c: Settings, s: State, a: Attempt): State
    requires a.accepted <= |a.bs|
  {
    match OutcomeOf(c, s, a)
    case Panicked => s
    case Refused => s
    case CreateFailed => State(Moved(s.files, c.Top()), 0, true)
    case Written(n) =>
      var rotates := Rotates(c, s, a);
      var files := if rotates then Moved(s.files, c.Top()) else s.files;
      var size := if rotates then 0 else s.currentSize;
      State(files[BASE := Data(files, BASE) + a.bs[..n]], size + n, s.closed && !rotates)
  }

  // A write that fits goes to the end of the file and leaves everything else alone.
  lemma FittingWrite(c: Settings, s: State, a: Attempt)
    requires a.accepted <= |a.bs| && s.currentSize + |a.bs| <= c.maxSize && (!s.closed || a.reopens)
    ensures OutcomeOf(c, s, a) == Written(a.accepted)
    ensures var was := if -1 in s.files then s.files[-1] else [];
      Step(c, s, a) == State(s.files[-1 := was + a.bs[..a.accepted]], s.currentSize + a.accepted, s.closed)
  {
  }

  // A write that does not fit starts a new file and moves the others up; if the new file cannot be
  // created, there is none.
  lemma LargeWrite(c: Settings, s: State, a: Attempt)
    requires a.accepted <= |a.bs| && s.currentSize + |a.bs| > c.maxSize && !s.closed
    ensures OutcomeOf(c, s, a) == if a.createOk then Written(a.accepted) else CreateFailed
    ensures var r := Step(c, s, a);
      && (if a.createOk then -1 in r.files && r.files[-1] == a.bs[..a.accepted] else -1 !in r.files)
      && r.currentSize == (if a.createOk then a.accepted else 0) && (r.closed <==> !a.createOk)
      && (-1 in s.files ==> 0 in r.files && r.files[0] == s.files[-1])
      && (forall i :: 1 <= i < c.maxFiles && i - 1 in s.files ==> i in r.files && r.files[i] == s.files[i - 1])
      && (forall i :: 1 <= i && c.maxFiles <= i ==> Lookup(r.files, i) == Lookup(s.files, i))
  {
    hide Moved;
    var moved := Moved(s.files, c.Top());
    var r := Step(c, s, a);
    assert forall j :: j != -1 ==> Lookup(r.files, j) == Lookup(moved, j);
    assert Lookup(moved, -1) == MovedAt(s.files, BASE, c.Top(), -1) == None;
    assert Lookup(moved, 0) == MovedAt(s.files, BASE, c.Top(), 0);
    forall i | 1 <= i < c.maxFiles && i - 1 in s.files ensures i in r.files && r.files[i] == s.files[i - 1] {
      assert Lookup(moved, i) == MovedAt(s.files, BASE, c.Top(), i) == Some(s.files[i - 1]);
      assert Lookup(r.files, i) == Lookup(moved, i);
    }
    forall i | 1 <= i && c.maxFiles <= i ensures Lookup(r.files, i) == Lookup(s.files, i) {
      assert Lookup(moved, i) == MovedAt(s.files, BASE, c.Top(), i);
    }
  }

  // Once closed, a file refuses writes unless it opens anew, and a second rotation panics.
  lemma ClosedWrite(c: Settings, s: State, a: Attempt)
    requires a.accepted <= |a.bs| && s.closed && (s.currentSize + |a.bs| > c.maxSize || !a.reopens)
    ensures OutcomeOf(c, s, a) == if s.currentSize + |a.bs| > c.maxSize then Panicked else Refused
    ensures Step(c, s, a) == s
  {
  }

  class RotatedFile {
    const settings: Settings
    var files: Files
    var currentSize: int
    // Whether currentFile.Close was called.
    var closed: bool

    function Value(): State
      reads this
    {
      State(files, currentSize, closed)
    }

    // newRotatedFile, where neither Lstat nor create fails. create opens for appending: what is there
    // stays the oldest part of the log, and counts towards the size.
    constructor (settings: Settings, existing: Files)
      ensures this.settings == settings && !closed && SizeOk(Value())
      ensures files.Keys == existing.Keys + {BASE} && forall i :: i in existing ==> files[i] == existing[i]
      ensures Log(files, BASE, settings.Top()) == Log(existing, BASE, settings.Top())
    {
      this.settings := settings;
      files := existing[BASE := Data(existing, BASE)];
      currentSize := |Data(existing, BASE)|;
      closed := false;
      new;
      LogAppend(existing, [], settings.Top());
      assert Data(existing, BASE) + [] == Data(existing, BASE);
    }

    method Write(a: Attempt) returns (r: Outcome)
      requires a.accepted <= |a.bs|
      modifies this
      ensures r == OutcomeOf(settings, old(Value()), a)
      ensures Value() == Step(settings, old(Value()), a)
    {
      if currentSize + |a.bs| > settings.maxSize {
        if closed {
          return Panicked;
        }
        closed := true;
        currentSize := 0;
        Rotate();
        if !a.createOk {
          return CreateFailed;
        }
        files := files[BASE := Data(files, BASE)];
        closed := false;
      }
      if closed && !a.reopens {
        return Refused;
      }
      files := files[BASE := Data(files, BASE) + a.bs[..a.accepted]];
      currentSize := currentSize + a.accepted;
      return Written(a.accepted);
    }

    // One rename after the other is all files moving at once.
    method Rotate()
      modifies this`files
      ensures files == Moved(old(files), settings.Top())
    {
      hide Moved, Rename;
      ghost var top := settings.Top();
      var i := settings.maxFiles - 1;
      while i > 0
        invariant i <= top
        invariant forall j :: Lookup(files, j) == MovedAt(old(files), if i > 0 then i else 0, top, j)
      {
        RenameMoves(old(files), files, i - 1, i, top);
        files := Rename(files, i - 1, i);
        i := i - 1;
      }
      RenameMoves(old(files), files, BASE, 0, top);
      files := Rename(files, BASE, 0);
      SameFiles(files, Moved(old(files), top));
    }
  }

  // ---------- every sequence of writes ----------

  ghost predicate Feasible(attempts: seq<Attempt>) {
    forall i :: 0 <= i < |attempts| ==> attempts[i].accepted <= |attempts[i].bs|
  }

  function Run(c: Settings, s: State, attempts: seq<Attempt>): State
    requires Feasible(attempts)
    decreases |attempts|
  {
    if attempts == [] then s else Run(c, Step(c, s, attempts[0]), attempts[1..])
  }

  function Chunks(c: Settings, s: State, attempts: seq<Attempt>): seq<Bytes>
    requires Feasible(attempts)
    decreases |attempts|
  {
    if attempts == [] then []
    else [Accepted(c, s, attempts[0])] + Chunks(c, Step(c, s, attempts[0]), attempts[1..])
  }

  function Concat(chunks: seq<Bytes>): Bytes {
    if chunks == [] then [] else chunks[0] + Concat(chunks[1..])
  }

  function Rotations(c: Settings, s: State, attempts: seq<Attempt>): nat
    requires Feasible(attempts)
    decreases |attempts|
  {
    if attempts == [] then 0
    else (if Rotates(c, s, attempts[0]) then 1 else 0) + Rotations(c, Step(c, s, attempts[0]), attempts[1..])
  }

  ghost predicate SuffixOf(a: Bytes, b: Bytes) {
    exists d :: 0 <= d <= |b| && a == b[d..]
  }

  predicate SizeOk(s: State) {
    s.currentSize == |Data(s.files, BASE)|
  }

  // What one write does to the log: it is appended, and a rotation drops the oldest file.
  lemma StepLog(c: Settings, s: State, a: Attempt)
    requires a.accepted <= |a.bs|
    ensures var top, before := c.Top(), Log(s.files, BASE, c.Top());
      var dropped := if Rotates(c, s, a) && !s.closed && top - 1 in s.files then |Data(s.files, top)| else 0;
      dropped <= |before| && Log(Step(c, s, a).files, BASE, top) == before[dropped..] + Accepted(c, s, a)
  {
    hide Moved;
    MovedDropsOldest(s.files, c.Top());
    LogAppend(s.files, Accepted(c, s, a), c.Top());
    LogAppend(Moved(s.files, c.Top()), Accepted(c, s, a), c.Top());
  }

  lemma SuffixStep(log: Bytes, dropped: nat, chunk: Bytes, rest: Bytes, final: Bytes)
    requires dropped <= |log| && SuffixOf(final, log[dropped..] + chunk + rest)
    ensures SuffixOf(final, log + (chunk + rest))
  {
    var d :| 0 <= d <= |log[dropped..] + chunk + rest| && final == (log[dropped..] + chunk + rest)[d..];
    Associates(log[dropped..], chunk, rest);
    SuffixFrom(log, dropped, chunk + rest, d);
    assert final == (log + (chunk + rest))[dropped + d..];
  }

  lemma SuffixFrom(log: Bytes, dropped: nat, more: Bytes, d: nat)
    requires dropped <= |log| && d <= |log[dropped..] + more|
    ensures (log[dropped..] + more)[d..] == (log + more)[dropped + d..]
  {
  }

  // After any sequence of writes, the files from the highest number down to the base hold a suffix
  // of what they held before followed by everything written since.
  lemma {:induction false} LogIsSuffix(c: Settings, s: State, attempts: seq<Attempt>)
    requires Feasible(attempts)
    ensures SuffixOf(Log(Run(c, s, attempts).files, BASE, c.Top()),
                     Log(s.files, BASE, c.Top()) + Concat(Chunks(c, s, attempts)))
    decreases |attempts|
  {
    var log := Log(s.files, BASE, c.Top());
    if attempts == [] {
      assert log == (log + [])[0..];
    } else {
      hide Step, Log, Accepted;
      var a := attempts[0];
      var s' := Step(c, s, a);
      StepLog(c, s, a);
      LogIsSuffix(c, s', attempts[1..]);
      var dropped :| 0 <= dropped <= |log| && Log(s'.files, BASE, c.Top()) == log[dropped..] + Accepted(c, s, a);
      var rest := Chunks(c, s', attempts[1..]);
      assert ([Accepted(c, s, a)] + rest)[1..] == rest;
      SuffixStep(log, dropped, Accepted(c, s, a), Concat(rest), Log(Run(c, s, attempts).files, BASE, c.Top()));
    }
  }

  ghost predicate Below(files: Files, k: int) {
    forall j :: j in files ==> j <= k
  }

  // Nothing is lost while there are numbers left to rotate to.
  lemma {:induction false} NothingLostAtFirst(c: Settings, s: State, attempts: seq<Attempt>, k: int)
    requires Feasible(attempts) && BASE <= k && Below(s.files, k) && k + Rotations(c, s, attempts) <= c.Top()
    ensures Log(Run(c, s, attempts).files, BASE, c.Top())
         == Log(s.files, BASE, c.Top()) + Concat(Chunks(c, s, attempts))
    decreases |attempts|
  {
    if attempts != [] {
      var a := attempts[0];
      var s' := Step(c, s, a);
      NothingDropped(c, s, a, k);
      StepRaises(c, s, a, k);
      hide Step, Log, Accepted, Below, Moved;
      NothingLostAtFirst(c, s', attempts[1..], if Rotates(c, s, a) then k + 1 else k);
      var rest := Chunks(c, s', attempts[1..]);
      assert ([Accepted(c, s, a)] + rest)[1..] == rest;
      Associates(Log(s.files, BASE, c.Top()), Accepted(c, s, a), Concat(rest));
    }
  }

  lemma NothingDropped(c: Settings, s: State, a: Attempt, k: int)
    requires a.accepted <= |a.bs| && BASE <= k && Below(s.files, k)
    requires (if Rotates(c, s, a) then k + 1 else k) <= c.Top()
    ensures Log(Step(c, s, a).files, BASE, c.Top()) == Log(s.files, BASE, c.Top()) + Accepted(c, s, a)
  {
    hide Log, Accepted, Moved;
    StepLog(c, s, a);
  }

  // So a log that starts as one file keeps everything through its first maxFiles rotations.
  lemma FirstRotationsKeepAll(c: Settings, base: Bytes, attempts: seq<Attempt>)
    requires c.maxFiles >= 1 && Feasible(attempts)
    requires Rotations(c, State(map[-1 := base], |base|, false), attempts) <= c.maxFiles
    ensures Log(Run(c, State(map[-1 := base], |base|, false), attempts).files, -1, c.maxFiles - 1)
         == base + Concat(Chunks(c, State(map[-1 := base], |base|, false), attempts))
  {
    var s := State(map[-1 := base], |base|, false);
    NothingLostAtFirst(c, s, attempts, BASE);
    OnlyBase(base, c.maxFiles - 1);
  }

  lemma {:induction false} OnlyBase(base: Bytes, high: int)
    requires -1 <= high
    ensures Log(map[-1 := base], -1, high) == base
    decreases high
  {
    if high > -1 {
      OnlyBase(base, high - 1);
    }
  }

  lemma StepRaises(c: Settings, s: State, a: Attempt, k: int)
    requires a.accepted <= |a.bs| && BASE <= k && Below(s.files, k)
    ensures Below(Step(c, s, a).files, if Rotates(c, s, a) then k + 1 else k)
  {
    hide Moved;
    MovedNumbers(s.files, c.Top());
    forall j | j in Moved(s.files, c.Top()) ensures j <= k + 1 {
      assert j in s.files || j - 1 in s.files;
    }
  }

  lemma MovedNumbers(files: Files, top: nat)
    ensures BASE !in Moved(files, top)
    ensures forall j :: j in Moved(files, top) ==> j in files || (j - 1 in files && 0 <= j <= top)
  {
    hide Moved;
    var moved := Moved(files, top);
    assert Lookup(moved, BASE) == MovedAt(files, BASE, top, BASE);
    forall j | j in moved ensures j in files || (j - 1 in files && 0 <= j <= top) {
      assert Lookup(moved, j) == MovedAt(files, BASE, top, j);
    }
  }

  // currentSize is the size of the file being written, in every run, also after a failed create.
  lemma {:induction false} SizeIsTracked(c: Settings, s: State, attempts: seq<Attempt>)
    requires Feasible(attempts) && SizeOk(s)
    ensures SizeOk(Run(c, s, attempts))
    decreases |attempts|
  {
    if attempts != [] {
      MovedNumbers(s.files, c.Top());
      SizeIsTracked(c, Step(c, s, attempts[0]), attempts[1..]);
    }
  }

  // A file is at most maxSize large, or the accepted part of one write, or as it was at the start.
  ghost predicate Bounded(c: Settings, files: Files, chunks: set<Bytes>, start: set<Bytes>) {
    forall j :: j in files ==> |files[j]| <= c.maxSize || files[j] in chunks || files[j] in start
  }

  lemma StepBounded(c: Settings, s: State, a: Attempt, chunks: set<Bytes>, start: set<Bytes>)
    requires a.accepted <= |a.bs| && SizeOk(s) && Bounded(c, s.files, chunks, start)
    ensures SizeOk(Step(c, s, a))
    ensures Bounded(c, Step(c, s, a).files, chunks + {Accepted(c, s, a)}, start)
  {
    hide Moved;
    var moved := Moved(s.files, c.Top());
    MovedNumbers(s.files, c.Top());
    forall j | j in moved ensures |moved[j]| <= c.maxSize || moved[j] in chunks || moved[j] in start {
      assert Lookup(moved, j) == MovedAt(s.files, BASE, c.Top(), j);
    }
    if OutcomeOf(c, s, a).Written? {
      WriteBounded(c, if Rotates(c, s, a) then moved else s.files, a.bs[..a.accepted], chunks, start);
    }
  }

  lemma WriteBounded(c: Settings, files: Files, chunk: Bytes, chunks: set<Bytes>, start: set<Bytes>)
    requires Bounded(c, files, chunks, start) && (BASE !in files || |files[BASE]| + |chunk| <= c.maxSize)
    ensures Bounded(c, files[BASE := Data(files, BASE) + chunk], chunks + {chunk}, start)
  {
    if BASE !in files {
      assert Data(files, BASE) + chunk == chunk;
    }
  }

  lemma {:induction false} FilesAreBounded(c: Settings, s: State, attempts: seq<Attempt>,
                                           chunks: set<Bytes>, start: set<Bytes>)
    requires Feasible(attempts) && SizeOk(s) && Bounded(c, s.files, chunks, start)
    ensures Bounded(c, Run(c, s, attempts).files, chunks + (set b | b in Chunks(c, s, attempts)), start)
    decreases |attempts|
  {
    if attempts != [] {
      var a := attempts[0];
      StepBounded(c, s, a, chunks, start);
      hide Step, Accepted;
      FilesAreBounded(c, Step(c, s, a), attempts[1..], chunks + {Accepted(c, s, a)}, start);
    }
  }

  // No run creates a file with a number above Top.
  lemma {:induction false} NumbersAreBounded(c: Settings, s: State, attempts: seq<Attempt>)
    requires Feasible(attempts)
    ensures forall j :: j in Run(c, s, attempts).files ==> j in s.files || BASE <= j <= c.Top()
    decreases |attempts|
  {
    if attempts != [] {
      MovedNumbers(s.files, c.Top());
      hide Moved;
      NumbersAreBounded(c, Step(c, s, attempts[0]), attempts[1..]);
    }
  }

  ghost predicate KeepsMaxFiles(c: Settings, s: State) {
    forall attempts :: Feasible(attempts) ==> Below(Run(c, s, attempts).files, c.maxFiles - 1)
  }

  // At most maxFiles old files are kept, exactly if maxFiles is at least one: with zero, which is
  // documented to keep only the current file, one old file is kept all the same.
  lemma KeepsMaxFilesIff(c: Settings, base: Bytes)
    ensures KeepsMaxFiles(c, State(map[BASE := base], |base|, false)) <==> c.maxFiles >= 1
  {
    var s := State(map[BASE := base], |base|, false);
    if c.maxFiles >= 1 {
      forall attempts | Feasible(attempts) ensures Below(Run(c, s, attempts).files, c.maxFiles - 1) {
        NumbersAreBounded(c, s, attempts);
      }
    } else {
      var bs: Bytes := seq(if c.maxSize < 0 then 0 else c.maxSize + 1, i => 0);
      var a := Attempt(bs, true, false, 0);
      assert Lookup(Moved(s.files, 0), 0) == MovedAt(s.files, BASE, 0, 0) == Some(base);
      hide Moved;
      assert 0 in Step(c, s, a).files;
      assert [a][1..] == [] && Run(c, s, [a]) == Step(c, s, a);
      assert Feasible([a]) && !Below(Run(c, s, [a]).files, c.maxFiles - 1);
    }
  }

  // ---------- the second close ----------

  lemma {:induction false} RunAppend(c: Settings, s: State, attempts: seq<Attempt>, a: Attempt)
    requires Feasible(attempts) && a.accepted <= |a.bs|
    ensures Feasible(attempts + [a]) && Run(c, s, attempts + [a]) == Step(c, Run(c, s, attempts), a)
    decreases |attempts|
  {
    var all := attempts + [a];
    if attempts == [] {
      assert all[1..] == [];
    } else {
      assert all[1..] == attempts[1..] + [a];
      RunAppend(c, Step(c, s, attempts[0]), attempts[1..], a);
    }
  }

  // Attempt i needs a rotation, and the file cannot be created.
  ghost predicate RotationFails(c: Settings, s: State, attempts: seq<Attempt>, i: nat)
    requires Feasible(attempts) && i < |attempts|
  {
    Rotates(c, Run(c, s, attempts[..i]), attempts[i]) && !attempts[i].createOk
  }

  lemma {:induction false} ClosedAfter(c: Settings, s: State, attempts: seq<Attempt>)
    requires Feasible(attempts) && !s.closed
    ensures Run(c, s, attempts).closed <==> exists i: nat :: i < |attempts| && RotationFails(c, s, attempts, i)
    decreases |attempts|
  {
    if attempts != [] {
      var n := |attempts| - 1;
      var front := attempts[..n];
      assert attempts == front + [attempts[n]];
      RunAppend(c, s, front, attempts[n]);
      ClosedAfter(c, s, front);
      assert Run(c, s, attempts).closed <==> Run(c, s, front).closed || RotationFails(c, s, attempts, n);
      hide Run, Moved, Rotates;
      forall i: nat | i < n ensures RotationFails(c, s, front, i) <==> RotationFails(c, s, attempts, i) {
        assert front[..i] == attempts[..i];
      }
      if i: nat :| i < n && RotationFails(c, s, front, i) {
        assert RotationFails(c, s, attempts, i);
      }
      if i: nat :| i < |attempts| && RotationFails(c, s, attempts, i) {
        assert i < n ==> RotationFails(c, s, front, i);
      }
    }
  }

  // A write panics exactly if it needs a rotation after some earlier rotation could not create the
  // file: currentFile is closed then, and stays the current file.
  lemma PanicNeedsFailedCreate(c: Settings, s: State, attempts: seq<Attempt>, a: Attempt)
    requires Feasible(attempts) && !s.closed
    ensures OutcomeOf(c, Run(c, s, attempts), a) == Panicked
       <==> Rotates(c, Run(c, s, attempts), a) && exists i: nat :: i < |attempts| && RotationFails(c, s, attempts, i)
  {
    ClosedAfter(c, s, attempts);
  }

  // It happens under all settings and from every open file: two large writes while create fails.
  lemma WriteCanPanic(c: Settings, s: State) returns (a: Attempt)
    requires SizeOk(s) && !s.closed
    ensures Feasible([a]) && OutcomeOf(c, s, a) == CreateFailed && OutcomeOf(c, Run(c, s, [a]), a) == Panicked
  {
    var bs: Bytes := seq(if c.maxSize < 0 then 0 else c.maxSize + 1, i => 0);
    a := Attempt(bs, false, false, 0);
    assert [a][1..] == [] && Run(c, s, [a]) == Step(c, s, a);
  }
}
